/** The packet stream of an open tunnel, which may start with an HTTP response head:
    internal/forti/tunnel.go. */
module Tunnels {
  import opened Bytes
  import opened Frames
  import opened Packets

  const CARRIAGE_RETURN: byte := 0x0d

  const HTTP_PREFIX: seq<byte> := [0x48, 0x54, 0x54, 0x50, 0x2f] // "HTTP/"

  const OK_MARK: seq<byte> := [0x20, 0x32, 0x30, 0x30] // " 200"

  const LINE_END: seq<byte> := [CARRIAGE_RETURN, LINE_FEED]

  datatype TunnelError =
    | ReadingResponse(cause: ReadError)
    | ReadingResponseHeader(cause: ReadError)
    | Refused(status: seq<byte>)
    | Framing(frameError: FrameError)

  /** strings.TrimRight(line, "\r\n") */
  function TrimLineEnd(line: seq<byte>): seq<byte> {
    if line != [] && line[|line| - 1] in LINE_END then TrimLineEnd(line[..|line| - 1]) else line
  }

  /** strings.Contains */
  predicate Contains(text: seq<byte>, mark: seq<byte>) {
    mark <= text || (text != [] && Contains(text[1..], mark))
  }

  datatype HeadRead = HeadRead(outcome: Result<seq<byte>, TunnelError>, rest: seq<byte>)

  /** The loop over the head's lines, with the status line found so far. */
  function SkipHead(status: seq<byte>, data: seq<byte>): HeadRead
    decreases |data|
  {
    var n := LineFeedAt(data);
    if n == |data| then
      HeadRead(Err(ReadingResponseHeader(EndOfFile)), [])
    else
      var line := TrimLineEnd(data[..n + 1]);
      var status' := if status == [] then line else status;
      if line == [] then
        HeadRead(if Contains(status', OK_MARK) then Ok(status') else Err(Refused(status')), data[n + 1..])
      else
        SkipHead(status', data[n + 1..])
  }

  /** What consumeHTTPResponse returns and leaves in the stream. */
  function ConsumeHead(data: seq<byte>): HeadRead {
    if |data| < 5 then HeadRead(Err(ReadingResponse(EndOfFile)), data)
    else if data[..5] != HTTP_PREFIX then HeadRead(Ok([]), data)
    else SkipHead([], data)
  }

  method ConsumeHTTPResponse(r: Reader) returns (outcome: Result<seq<byte>, TunnelError>)
    modifies r
    ensures HeadRead(outcome, r.pending) == ConsumeHead(old(r.pending))
  {
    var prefix := r.Peek(5);
    if prefix.Err? {
      return Err(ReadingResponse(prefix.error));
    }
    if prefix.value != HTTP_PREFIX {
      return Ok([]);
    }
    var status: seq<byte> := [];
    while true
      invariant SkipHead(status, r.pending) == ConsumeHead(old(r.pending))
      decreases |r.pending|
    {
      var read := r.ReadLine();
      if read.Err? {
        return Err(ReadingResponseHeader(read.error));
      }
      var line := TrimLineEnd(read.value);
      if status == [] {
        status := line;
      }
      if line == [] {
        break;
      }
    }
    if !Contains(status, OK_MARK) {
      return Err(Refused(status));
    }
    outcome := Ok(status);
  }

  datatype PacketRead = PacketRead(outcome: Result<seq<byte>, TunnelError>, headerChecked: bool, rest: seq<byte>)

  function LiftFrame(read: FrameRead): PacketRead {
    PacketRead(match read.outcome
               case Ok(payload) => Ok(payload)
               case Err(e) => Err(Framing(e)),
               true, read.rest)
  }

  /** What Tunnel.ReadPacket returns and leaves behind. */
  function NextPacket(headerChecked: bool, data: seq<byte>): PacketRead {
    if headerChecked then
      LiftFrame(ParseFrame(data))
    else
      var head := ConsumeHead(data);
      match head.outcome
      case Err(e) => PacketRead(Err(e), false, head.rest)
      case Ok(_) => LiftFrame(ParseFrame(head.rest))
  }

  class Tunnel {
    const reader: Reader
    const conn: Writer
    var headerChecked: bool

    constructor (reader: Reader, conn: Writer)
      ensures this.reader == reader && this.conn == conn && !headerChecked
    {
      this.reader, this.conn, headerChecked := reader, conn, false;
    }

    method ReadPacket() returns (outcome: Result<seq<byte>, TunnelError>)
      modifies this, reader
      ensures PacketRead(outcome, headerChecked, reader.pending)
              == NextPacket(old(headerChecked), old(reader.pending))
    {
      if !headerChecked {
        var status := ConsumeHTTPResponse(reader);
        if status.Err? {
          return Err(status.error);
        }
        headerChecked := true;
      }
      var frame := ReadFrame(reader);
      match frame {
        case Ok(payload) => outcome := Ok(payload);
        case Err(e) => outcome := Err(Framing(e));
      }
    }

    method WritePacket(payload: seq<byte>) returns (failure: Option<FrameError>)
      modifies conn`written
      ensures failure.None? <==> |payload| <= MAX_FRAME_LEN && !conn.broken
      ensures conn.written == if failure.None? then old(conn.written) + FrameBytes(payload) else old(conn.written)
    {
      failure := WriteFrame(conn, payload);
    }
  }

  // --- The head on the wire ---

  /** A header line: not empty, and neither cut short nor shortened by the reader's trimming. */
  predicate IsHeadLine(line: seq<byte>) {
    line != [] && LINE_FEED !in line && line[|line| - 1] != CARRIAGE_RETURN
  }

  function HeadBytes(lines: seq<seq<byte>>): seq<byte> {
    if lines == [] then LINE_END else lines[0] + LINE_END + HeadBytes(lines[1..])
  }

  /** A response head. */
  predicate IsHead(lines: seq<seq<byte>>) {
    && lines != []
    && (forall i :: 0 <= i < |lines| ==> IsHeadLine(lines[i]))
    && HTTP_PREFIX <= lines[0]
  }

  predicate StandsAt(mark: seq<byte>, text: seq<byte>, i: nat) {
    i + |mark| <= |text| && text[i..i + |mark|] == mark
  }

  /** The mark stands somewhere in the text. */
  ghost predicate Occurs(mark: seq<byte>, text: seq<byte>) {
    exists i: nat :: StandsAt(mark, text, i)
  }

  /** A response head that accepts the tunnel. */
  ghost predicate IsAcceptingHead(lines: seq<seq<byte>>) {
    IsHead(lines) && Occurs(OK_MARK, lines[0])
  }

  lemma {:induction false} ContainsIsOccurs(text: seq<byte>, mark: seq<byte>)
    ensures Contains(text, mark) <==> Occurs(mark, text)
  {
    if mark <= text {
      assert StandsAt(mark, text, 0);
    } else if text != [] {
      ContainsIsOccurs(text[1..], mark);
      if Occurs(mark, text) {
        var i: nat :| StandsAt(mark, text, i);
        assert i > 0 && text[1..][i - 1..i - 1 + |mark|] == text[i..i + |mark|];
        assert StandsAt(mark, text[1..], i - 1);
      }
      if Occurs(mark, text[1..]) {
        var i: nat :| StandsAt(mark, text[1..], i);
        assert text[1..][i..i + |mark|] == text[i + 1..i + 1 + |mark|];
        assert StandsAt(mark, text, i + 1);
      }
    }
  }

  lemma LineFeedIsFirst(before: seq<byte>, after: seq<byte>)
    requires LINE_FEED !in before
    ensures LineFeedAt(before + [LINE_FEED] + after) == |before|
  {
    var data := before + [LINE_FEED] + after;
    assert data[|before|] == LINE_FEED;
    assert forall i :: 0 <= i < |before| ==> data[i] == before[i];
  }

  lemma TrimmedLine(line: seq<byte>)
    requires line == [] || (line[|line| - 1] != CARRIAGE_RETURN && LINE_FEED !in line)
    ensures TrimLineEnd(line + LINE_END) == line
  {
    var full := line + LINE_END;
    assert full[..|full| - 1] == line + [CARRIAGE_RETURN];
    assert (line + [CARRIAGE_RETURN])[..|line|] == line;
    assert TrimLineEnd(full) == TrimLineEnd(line + [CARRIAGE_RETURN]) == TrimLineEnd(line);
    if line != [] {
      assert line[|line| - 1] in line;
    }
  }

  lemma HeadLineIsRead(status: seq<byte>, line: seq<byte>, rest: seq<byte>)
    requires line == [] || IsHeadLine(line)
    ensures var data := line + LINE_END + rest;
            var n := LineFeedAt(data);
            n < |data| && TrimLineEnd(data[..n + 1]) == line && data[n + 1..] == rest
  {
    var data := line + LINE_END + rest;
    var before := line + [CARRIAGE_RETURN];
    assert data == before + [LINE_FEED] + rest;
    LineFeedIsFirst(before, rest);
    assert data[..|before| + 1] == line + LINE_END;
    TrimmedLine(line);
  }

  lemma {:induction false} HeadIsSkipped(status: seq<byte>, lines: seq<seq<byte>>, rest: seq<byte>)
    requires forall i :: 0 <= i < |lines| ==> IsHeadLine(lines[i])
    requires status != []
    ensures SkipHead(status, HeadBytes(lines) + rest)
            == HeadRead(if Contains(status, OK_MARK) then Ok(status) else Err(Refused(status)), rest)
  {
    if lines == [] {
      HeadLineIsRead(status, [], rest);
      assert HeadBytes(lines) + rest == [] + LINE_END + rest;
    } else {
      var tail := HeadBytes(lines[1..]) + rest;
      assert HeadBytes(lines) + rest == lines[0] + LINE_END + tail;
      HeadLineIsRead(status, lines[0], tail);
      HeadIsSkipped(status, lines[1..], rest);
    }
  }

  /** A head is consumed whole, and nothing after it is touched; it accepts the tunnel exactly if " 200" stands
      somewhere in its first line, and otherwise that line is the reason given. */
  lemma HeadIsRead(lines: seq<seq<byte>>, rest: seq<byte>)
    requires IsHead(lines)
    ensures ConsumeHead(HeadBytes(lines) + rest)
            == HeadRead(if IsAcceptingHead(lines) then Ok(lines[0]) else Err(Refused(lines[0])), rest)
  {
    var data := HeadBytes(lines) + rest;
    var tail := HeadBytes(lines[1..]) + rest;
    assert data == lines[0] + LINE_END + tail;
    assert data[..5] == lines[0][..5] == HTTP_PREFIX;
    HeadLineIsRead([], lines[0], tail);
    HeadIsSkipped(lines[0], lines[1..], rest);
    ContainsIsOccurs(lines[0], OK_MARK);
  }

  lemma AcceptingHeadIsConsumed(lines: seq<seq<byte>>, rest: seq<byte>)
    requires IsAcceptingHead(lines)
    ensures ConsumeHead(HeadBytes(lines) + rest) == HeadRead(Ok(lines[0]), rest)
  {
    HeadIsRead(lines, rest);
  }

  lemma LineIsSkipped(status: seq<byte>, line: seq<byte>, rest: seq<byte>)
    requires IsHeadLine(line)
    ensures SkipHead(status, line + LINE_END + rest) == SkipHead(if status == [] then line else status, rest)
  {
    hide TrimLineEnd;
    HeadLineIsRead(status, line, rest);
  }

  lemma CutLineHasNoEnd(status: seq<byte>, line: seq<byte>, cut: nat)
    requires LINE_FEED !in line && cut < |line| + 2
    ensures SkipHead(status, (line + LINE_END)[..cut]) == HeadRead(Err(ReadingResponseHeader(EndOfFile)), [])
  {
    var data := (line + LINE_END)[..cut];
    assert forall i :: 0 <= i < cut ==> data[i] == if i < |line| then line[i] else CARRIAGE_RETURN;
    assert LineFeedAt(data) == |data|;
  }

  lemma {:induction false} CutHeadIsSkipped(status: seq<byte>, lines: seq<seq<byte>>, cut: nat)
    requires forall i :: 0 <= i < |lines| ==> IsHeadLine(lines[i])
    requires cut < |HeadBytes(lines)|
    ensures SkipHead(status, HeadBytes(lines)[..cut]) == HeadRead(Err(ReadingResponseHeader(EndOfFile)), [])
    decreases |lines|
  {
    hide SkipHead;
    if lines == [] {
      assert HeadBytes(lines) == [] + LINE_END;
      CutLineHasNoEnd(status, [], cut);
    } else {
      var line, tail := lines[0], HeadBytes(lines[1..]);
      assert IsHeadLine(line) && HeadBytes(lines) == line + LINE_END + tail;
      if cut < |line| + 2 {
        assert HeadBytes(lines)[..cut] == (line + LINE_END)[..cut];
        CutLineHasNoEnd(status, line, cut);
      } else {
        var rest := tail[..cut - |line| - 2];
        assert HeadBytes(lines)[..cut] == line + LINE_END + rest;
        LineIsSkipped(status, line, rest);
        CutHeadIsSkipped(if status == [] then line else status, lines[1..], cut - |line| - 2);
      }
    }
  }

  /** A head cut short at any point is never taken for an answer, nor for the start of the packets. */
  lemma CutHeadIsAnError(lines: seq<seq<byte>>, cut: nat)
    requires IsHead(lines) && cut < |HeadBytes(lines)|
    ensures ConsumeHead(HeadBytes(lines)[..cut]).outcome
            == Err(if cut < 5 then ReadingResponse(EndOfFile) else ReadingResponseHeader(EndOfFile))
  {
    if cut >= 5 {
      assert HeadBytes(lines)[..cut][..5] == lines[0][..5] == HTTP_PREFIX;
      CutHeadIsSkipped([], lines, cut);
    }
  }

  /** A frame of any payload the writer accepts is never taken for a response head, whatever follows
      it, and an accepting head is never taken for a frame: the third byte is 'P' in one and 'T' in
      the other. */
  lemma FrameIsNotAHead(payload: seq<byte>, rest: seq<byte>, lines: seq<seq<byte>>)
    requires |payload| <= MAX_FRAME_LEN && IsAcceptingHead(lines)
    ensures ConsumeHead(FrameBytes(payload) + rest) == HeadRead(Ok([]), FrameBytes(payload) + rest)
    ensures ParseFrame(HeadBytes(lines) + rest).outcome == Err(BadMagic(0x5450))
  {
    hide ConsumeHead, FrameBytes;
    FrameHasNoHead(payload, rest);
    var data := HeadBytes(lines) + rest;
    assert HTTP_PREFIX <= lines[0] <= data && |data| > FRAME_HEADER_SIZE;
    assert data[2] == HTTP_PREFIX[2] && data[3] == HTTP_PREFIX[3];
  }

  lemma FrameHasNoHead(payload: seq<byte>, rest: seq<byte>)
    requires |payload| <= MAX_FRAME_LEN
    ensures ConsumeHead(FrameBytes(payload) + rest) == HeadRead(Ok([]), FrameBytes(payload) + rest)
  {
    var data := FrameBytes(payload) + rest;
    HeaderFields(|payload|);
    assert data[..5][2] == Header(|payload|)[2] == 0x50;
    assert HTTP_PREFIX[2] == 0x54;
  }

  // --- Whole streams ---

  /** What writing the payloads one after the other puts on the wire. */
  function StreamBytes(payloads: seq<seq<byte>>): seq<byte> {
    if payloads == [] then [] else FrameBytes(payloads[0]) + StreamBytes(payloads[1..])
  }

  datatype Reading = Reading(payloads: seq<seq<byte>>, rest: seq<byte>)

  /** What `count` successive ReadPacket calls return, up to the first failure, and leave unread. */
  function ReadPackets(headerChecked: bool, data: seq<byte>, count: nat): Reading
    decreases count
  {
    if count == 0 then Reading([], data)
    else
      var read := NextPacket(headerChecked, data);
      match read.outcome
      case Err(_) => Reading([], read.rest)
      case Ok(payload) =>
        var later := ReadPackets(read.headerChecked, read.rest, count - 1);
        Reading([payload] + later.payloads, later.rest)
  }

  predicate AllFramable(payloads: seq<seq<byte>>) {
    forall i :: 0 <= i < |payloads| ==> Framable(payloads[i])
  }

  lemma FirstPayloadIsRead(payload: seq<byte>, rest: seq<byte>, count: nat)
    requires Framable(payload)
    ensures ReadPackets(true, FrameBytes(payload) + rest, count + 1)
            == Reading([payload] + ReadPackets(true, rest, count).payloads, ReadPackets(true, rest, count).rest)
  {
    hide ParseFrame, FrameBytes;
    FrameParses(payload, rest);
    assert NextPacket(true, FrameBytes(payload) + rest) == PacketRead(Ok(payload), true, rest);
  }

  lemma {:induction false} FramesRoundTrip(payloads: seq<seq<byte>>, rest: seq<byte>)
    requires AllFramable(payloads)
    ensures ReadPackets(true, StreamBytes(payloads) + rest, |payloads|) == Reading(payloads, rest)
  {
    hide NextPacket, FrameBytes;
    if payloads == [] {
      assert StreamBytes(payloads) + rest == rest;
    } else {
      var first, later := payloads[0], payloads[1..];
      FramesRoundTrip(later, rest);
      FirstPayloadIsRead(first, StreamBytes(later) + rest, |later|);
      assert StreamBytes(payloads) + rest == FrameBytes(first) + (StreamBytes(later) + rest);
      assert payloads == [first] + later;
    }
  }

  lemma HeadIsReadOnce(data: seq<byte>, count: nat)
    requires count > 0 && ConsumeHead(data).outcome.Ok?
    ensures ReadPackets(false, data, count) == ReadPackets(true, ConsumeHead(data).rest, count)
  {
    assert NextPacket(false, data) == NextPacket(true, ConsumeHead(data).rest);
  }

  function OptionalHead(lines: seq<seq<byte>>): seq<byte> {
    if lines == [] then [] else HeadBytes(lines)
  }

  /** The first read leaves the stream at the first frame, whether or not a head came before it. */
  lemma StreamStartsAfterHead(lines: seq<seq<byte>>, first: seq<byte>, later: seq<byte>)
    requires lines == [] || IsAcceptingHead(lines)
    requires |first| <= MAX_FRAME_LEN
    ensures var read := ConsumeHead(OptionalHead(lines) + (FrameBytes(first) + later));
            read.outcome.Ok? && read.rest == FrameBytes(first) + later
  {
    var frames := FrameBytes(first) + later;
    if lines == [] {
      FrameHasNoHead(first, later);
      assert OptionalHead(lines) + frames == frames;
    } else {
      AcceptingHeadIsConsumed(lines, frames);
    }
  }

  /** Reading an optional response head followed by the frames of any payloads yields exactly those
      payloads, in order, with nothing else consumed. */
  lemma StreamRoundTrip(lines: seq<seq<byte>>, payloads: seq<seq<byte>>, rest: seq<byte>)
    requires lines == [] || IsAcceptingHead(lines)
    requires payloads != [] && AllFramable(payloads)
    ensures ReadPackets(false, OptionalHead(lines) + (StreamBytes(payloads) + rest), |payloads|)
            == Reading(payloads, rest)
  {
    hide ReadPackets, ConsumeHead, FrameBytes, HeadBytes, IsAcceptingHead;
    var first, later := payloads[0], StreamBytes(payloads[1..]) + rest;
    assert Framable(first);
    assert StreamBytes(payloads) + rest == FrameBytes(first) + later;
    StreamStartsAfterHead(lines, first, later);
    HeadIsReadOnce(OptionalHead(lines) + (StreamBytes(payloads) + rest), |payloads|);
    FramesRoundTrip(payloads, rest);
  }

  // --- Packets inside the stream ---

  /** A packet that survives both codecs. */
  predicate Sendable(p: Packet) {
    Representable(p) && |Encode(p)| <= MAX_FRAME_LEN
  }

  function EncodeAll(packets: seq<Packet>): seq<seq<byte>> {
    seq(|packets|, i requires 0 <= i < |packets| => Encode(packets[i]))
  }

  /** Packets written through the framing come back as the same packets in the same order. */
  lemma PacketStreamRoundTrip(lines: seq<seq<byte>>, packets: seq<Packet>, rest: seq<byte>)
    requires lines == [] || IsAcceptingHead(lines)
    requires packets != [] && forall i :: 0 <= i < |packets| ==> Sendable(packets[i])
    ensures var wire := OptionalHead(lines) + (StreamBytes(EncodeAll(packets)) + rest);
            var read := ReadPackets(false, wire, |packets|);
            && read.rest == rest && |read.payloads| == |packets|
            && forall i :: 0 <= i < |packets| ==> Decode(read.payloads[i]) == Ok(packets[i])
  {
    var payloads := EncodeAll(packets);
    forall i | 0 <= i < |packets|
      ensures Framable(payloads[i]) && Decode(payloads[i]) == Ok(packets[i])
    {
      assert Sendable(packets[i]);
      RoundTrip(packets[i]);
    }
    StreamRoundTrip(lines, payloads, rest);
  }
}
