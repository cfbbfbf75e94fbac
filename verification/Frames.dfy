/** The gateway's 6-byte framing of PPP packets: internal/forti/frame.go. */
module Frames {
  import opened Bytes

  const FRAME_HEADER_SIZE := 6
  const FRAME_MAGIC: uint16 := 0x5050
  const MAX_FRAME_LEN := 0x2000

  const LINE_FEED: byte := 0x0a

  datatype ReadError = EndOfFile | UnexpectedEndOfFile

  datatype FrameError =
    | ReadingHeader(cause: ReadError)
    | BadMagic(magic: uint16)
    | InconsistentHeader(total: uint16, size: uint16)
    | PayloadTooLarge(length: nat)
    | ReadingPayload(cause: ReadError)
    | WritingFrame

  /** What io.ReadFull reports for a stream of `available` bytes. */
  function ReadOutcome(available: nat, wanted: nat): Option<ReadError> {
    if wanted <= available then None
    else if available == 0 then Some(EndOfFile)
    else Some(UnexpectedEndOfFile)
  }

  /** The offset of the first line feed, or the length of the data when there is none. */
  function LineFeedAt(data: seq<byte>): (n: nat)
    ensures n <= |data|
    ensures n < |data| ==> data[n] == LINE_FEED
    ensures forall i :: 0 <= i < n ==> data[i] != LINE_FEED
  {
    if data == [] || data[0] == LINE_FEED then 0 else 1 + LineFeedAt(data[1..])
  }

  /** The bytes a peer sends before it closes its side, as the buffered reader hands them out. */
  class Reader {
    var pending: seq<byte>

    constructor (bytes: seq<byte>)
      ensures pending == bytes
    {
      pending := bytes;
    }

    /** io.ReadFull: the buffer is filled, or the stream is drained. */
    method ReadFull(buffer: array<byte>) returns (failure: Option<ReadError>)
      modifies this, buffer
      ensures failure == ReadOutcome(|old(pending)|, buffer.Length)
      ensures failure.None? ==> buffer[..] + pending == old(pending)
      ensures failure.Some? ==> pending == []
    {
      var wanted := buffer.Length;
      var count := if wanted <= |pending| then wanted else |pending|;
      forall i | 0 <= i < count {
        buffer[i] := pending[i];
      }
      failure := ReadOutcome(|pending|, wanted);
      assert count == wanted ==> buffer[..] == pending[..count];
      pending := pending[count..];
    }

    /** bufio.Reader.Peek, which consumes nothing. */
    method Peek(count: nat) returns (r: Result<seq<byte>, ReadError>)
      ensures r == if count <= |pending| then Ok(pending[..count]) else Err(EndOfFile)
    {
      r := if count <= |pending| then Ok(pending[..count]) else Err(EndOfFile);
    }

    /** bufio.Reader.ReadString('\n'): the line with its line feed, or the rest of the stream. */
    method ReadLine() returns (r: Result<seq<byte>, ReadError>)
      modifies this
      ensures var n := LineFeedAt(old(pending));
              if n < |old(pending)|
              then r == Ok(old(pending)[..n + 1]) && pending == old(pending)[n + 1..]
              else r == Err(EndOfFile) && pending == []
    {
      var n := LineFeedAt(pending);
      if n < |pending| {
        r := Ok(pending[..n + 1]);
        pending := pending[n + 1..];
      } else {
        r := Err(EndOfFile);
        pending := [];
      }
    }
  }

  /** The sending side of the connection; `broken` stands for a write the network refuses. */
  class Writer {
    var written: seq<byte>
    var broken: bool

    constructor ()
      ensures written == [] && !broken
    {
      written, broken := [], false;
    }

    method Write(buffer: array<byte>) returns (ok: bool)
      modifies this`written
      ensures ok == !broken
      ensures written == if ok then old(written) + buffer[..] else old(written)
    {
      ok := !broken;
      if ok {
        written := written + buffer[..];
      }
    }
  }

  function Header(size: nat): seq<byte> {
    WriteUint16(TruncateToUint16(FRAME_HEADER_SIZE + size))
    + WriteUint16(FRAME_MAGIC)
    + WriteUint16(TruncateToUint16(size))
  }

  /** One frame on the wire. */
  function FrameBytes(payload: seq<byte>): seq<byte> {
    Header(|payload|) + payload
  }

  /** The payloads the reader accepts. */
  predicate Framable(payload: seq<byte>) {
    1 <= |payload| <= MAX_FRAME_LEN
  }

  datatype FrameRead = FrameRead(outcome: Result<seq<byte>, FrameError>, rest: seq<byte>)

  /** What ReadFrame returns and leaves in the stream. */
  function ParseFrame(data: seq<byte>): FrameRead {
    if |data| < FRAME_HEADER_SIZE then
      FrameRead(Err(ReadingHeader(ReadOutcome(|data|, FRAME_HEADER_SIZE).value)), [])
    else
      var total := ReadUint16(data[0], data[1]);
      var magic := ReadUint16(data[2], data[3]);
      var size := ReadUint16(data[4], data[5]);
      var rest := data[FRAME_HEADER_SIZE..];
      if magic != FRAME_MAGIC then FrameRead(Err(BadMagic(magic)), rest)
      else if total < FRAME_HEADER_SIZE + 1 || total - FRAME_HEADER_SIZE != size then
        FrameRead(Err(InconsistentHeader(total, size)), rest)
      else if size > MAX_FRAME_LEN then FrameRead(Err(PayloadTooLarge(size)), rest)
      else if |rest| < size then
        FrameRead(Err(ReadingPayload(ReadOutcome(|rest|, size).value)), [])
      else FrameRead(Ok(rest[..size]), rest[size..])
  }

  method ReadFrame(r: Reader) returns (outcome: Result<seq<byte>, FrameError>)
    modifies r
    ensures FrameRead(outcome, r.pending) == ParseFrame(old(r.pending))
  {
    ghost var data := r.pending;
    var header := new byte[FRAME_HEADER_SIZE](_ => 0);
    var failure := r.ReadFull(header);
    if failure.Some? {
      return Err(ReadingHeader(failure.value));
    }
    assert data == header[..] + r.pending;
    assert header[..] == data[..FRAME_HEADER_SIZE] && r.pending == data[FRAME_HEADER_SIZE..];
    var total := ReadUint16(header[0], header[1]);
    var magic := ReadUint16(header[2], header[3]);
    var size := ReadUint16(header[4], header[5]);
    if magic != FRAME_MAGIC {
      return Err(BadMagic(magic));
    }
    if total < FRAME_HEADER_SIZE + 1 || total - FRAME_HEADER_SIZE != size {
      return Err(InconsistentHeader(total, size));
    }
    if size > MAX_FRAME_LEN {
      return Err(PayloadTooLarge(size));
    }
    ghost var rest := r.pending;
    var payload := new byte[size](_ => 0);
    failure := r.ReadFull(payload);
    if failure.Some? {
      return Err(ReadingPayload(failure.value));
    }
    assert payload[..] == rest[..size] && r.pending == rest[size..];
    outcome := Ok(payload[..]);
  }

  method WriteFrame(w: Writer, payload: seq<byte>) returns (failure: Option<FrameError>)
    modifies w`written
    ensures failure == if |payload| > MAX_FRAME_LEN then Some(PayloadTooLarge(|payload|))
                       else if w.broken then Some(WritingFrame) else None
    ensures w.written == if failure.None? then old(w.written) + FrameBytes(payload) else old(w.written)
  {
    if |payload| > MAX_FRAME_LEN {
      return Some(PayloadTooLarge(|payload|));
    }
    var buffer := new byte[FRAME_HEADER_SIZE + |payload|](_ => 0);
    var total := WriteUint16(TruncateToUint16(FRAME_HEADER_SIZE + |payload|));
    buffer[0], buffer[1] := total[0], total[1];
    var magic := WriteUint16(FRAME_MAGIC);
    buffer[2], buffer[3] := magic[0], magic[1];
    var size := WriteUint16(TruncateToUint16(|payload|));
    buffer[4], buffer[5] := size[0], size[1];
    forall i | 0 <= i < |payload| {
      buffer[FRAME_HEADER_SIZE + i] := payload[i];
    }
    assert buffer[..FRAME_HEADER_SIZE] == Header(|payload|);
    assert buffer[FRAME_HEADER_SIZE..] == payload;
    assert buffer[..] == buffer[..FRAME_HEADER_SIZE] + buffer[FRAME_HEADER_SIZE..];
    var ok := w.Write(buffer);
    failure := if ok then None else Some(WritingFrame);
  }

  /** The reader returns a payload exactly when the stream starts with the frame of that payload,
      and leaves exactly what follows the frame. The writer also emits the frame of an empty payload,
      which the reader refuses. */
  lemma ReadFrameInvertsWriteFrame(data: seq<byte>, payload: seq<byte>, rest: seq<byte>)
    ensures ParseFrame(data) == FrameRead(Ok(payload), rest)
            <==> Framable(payload) && data == FrameBytes(payload) + rest
    ensures |payload| <= MAX_FRAME_LEN ==>
              (ParseFrame(FrameBytes(payload) + rest) == FrameRead(Ok(payload), rest) <==> payload != [])
  {
    if |payload| <= MAX_FRAME_LEN {
      FrameParses(payload, rest);
    }
    if ParseFrame(data) == FrameRead(Ok(payload), rest) {
      ParsedFrameIsWritten(data, payload, rest);
    }
  }

  lemma ParsedFrameIsWritten(data: seq<byte>, payload: seq<byte>, rest: seq<byte>)
    requires ParseFrame(data) == FrameRead(Ok(payload), rest)
    ensures Framable(payload) && data == FrameBytes(payload) + rest
  {
    hide Header, ReadUint16;
    var header, content := data[..FRAME_HEADER_SIZE], data[FRAME_HEADER_SIZE..];
    ParsedHeaderIsWritten(header, |payload|);
    assert content == payload + rest;
    assert data == header + content;
    assert FrameBytes(payload) + rest == Header(|payload|) + (payload + rest);
  }

  lemma ParsedHeaderIsWritten(header: seq<byte>, size: nat)
    requires |header| == FRAME_HEADER_SIZE && size <= MAX_FRAME_LEN
    requires ReadUint16(header[0], header[1]) == FRAME_HEADER_SIZE + size
    requires ReadUint16(header[2], header[3]) == FRAME_MAGIC
    requires ReadUint16(header[4], header[5]) == size
    ensures header == Header(size)
  {
    hide ReadUint16, WriteUint16;
    SixBytes(header);
    WriteInvertsRead(header[0], header[1]);
    WriteInvertsRead(header[2], header[3]);
    WriteInvertsRead(header[4], header[5]);
    assert TruncateToUint16(FRAME_HEADER_SIZE + size) == FRAME_HEADER_SIZE + size;
    assert TruncateToUint16(size) == size;
  }

  lemma SixBytes(header: seq<byte>)
    requires |header| == FRAME_HEADER_SIZE
    ensures header == [header[0], header[1]] + [header[2], header[3]] + [header[4], header[5]]
  {
  }

  lemma HeaderFields(size: nat)
    requires size <= MAX_FRAME_LEN
    ensures var h := Header(size);
            && |h| == FRAME_HEADER_SIZE
            && ReadUint16(h[0], h[1]) == FRAME_HEADER_SIZE + size
            && h[2] == h[3] == 0x50 && ReadUint16(h[2], h[3]) == FRAME_MAGIC
            && ReadUint16(h[4], h[5]) == size
  {
  }

  lemma FrameParses(payload: seq<byte>, rest: seq<byte>)
    requires |payload| <= MAX_FRAME_LEN
    ensures ParseFrame(FrameBytes(payload) + rest)
            == if payload == [] then FrameRead(Err(InconsistentHeader(FRAME_HEADER_SIZE, 0)), rest)
               else FrameRead(Ok(payload), rest)
  {
    hide Header, ReadUint16;
    var header := Header(|payload|);
    HeaderFields(|payload|);
    var data := FrameBytes(payload) + rest;
    assert data == header + (payload + rest);
    assert data[FRAME_HEADER_SIZE..] == payload + rest;
    assert forall i :: 0 <= i < FRAME_HEADER_SIZE ==> data[i] == header[i];
  }

  /** Exactly what each header is refused for, if it is; the reader stops right behind it. */
  lemma BadHeaderIsReported(total: uint16, magic: uint16, size: uint16, rest: seq<byte>)
    ensures var read := ParseFrame(WriteUint16(total) + WriteUint16(magic) + WriteUint16(size) + rest);
            var consistent := size > 0 && total == FRAME_HEADER_SIZE + size;
            && (read.outcome == Err(BadMagic(magic)) <==> magic != 0x5050)
            && (read.outcome == Err(InconsistentHeader(total, size)) <==> magic == 0x5050 && !consistent)
            && (read.outcome == Err(PayloadTooLarge(size)) <==>
                  magic == 0x5050 && consistent && size > MAX_FRAME_LEN)
            && (magic != 0x5050 || !consistent || size > MAX_FRAME_LEN ==> read.rest == rest)
  {
    hide ReadUint16, WriteUint16;
    ReadInvertsWrite(total);
    ReadInvertsWrite(magic);
    ReadInvertsWrite(size);
    var data := WriteUint16(total) + WriteUint16(magic) + WriteUint16(size) + rest;
    assert data[FRAME_HEADER_SIZE..] == rest;
    assert data[0] == WriteUint16(total)[0] && data[1] == WriteUint16(total)[1];
    assert data[2] == WriteUint16(magic)[0] && data[3] == WriteUint16(magic)[1];
    assert data[4] == WriteUint16(size)[0] && data[5] == WriteUint16(size)[1];
  }

  predicate ReportsCleanEnd(read: FrameRead) {
    read.outcome == Err(ReadingHeader(EndOfFile)) || read.outcome == Err(ReadingPayload(EndOfFile))
  }

  /** A stream cut inside a frame is meant to surface as an unexpected end, and a plain end of file
      to mean a clean close between frames. The code meets this for a cut at every offset but one: a
      stream that ends exactly after a header reports the plain end of file. */
  lemma CutFrameIsUnexpectedExceptAfterHeader(payload: seq<byte>, cut: nat)
    requires Framable(payload) && cut < |FrameBytes(payload)|
    ensures var read := ParseFrame(FrameBytes(payload)[..cut]);
            && read.outcome.Err? && read.rest == []
            && (ReportsCleanEnd(read) <==> cut == 0 || cut == FRAME_HEADER_SIZE)
  {
    var data := FrameBytes(payload)[..cut];
    if cut >= FRAME_HEADER_SIZE {
      var header := Header(|payload|);
      HeaderFields(|payload|);
      assert data == header + payload[..cut - FRAME_HEADER_SIZE];
      assert forall i :: 0 <= i < FRAME_HEADER_SIZE ==> data[i] == header[i];
    }
  }
}
