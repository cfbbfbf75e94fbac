/** PPP control packets and their option lists: internal/ppp/packet.go. */
module Packets {
  import opened Bytes

  const PROTOCOL_IPCP: uint16 := 0x8021
  const PROTOCOL_LCP: uint16 := 0xc021

  const CONFIGURE_REQUEST: byte := 1
  const CONFIGURE_ACK: byte := 2
  const CONFIGURE_NAK: byte := 3
  const CONFIGURE_REJECT: byte := 4
  const TERMINATE_REQUEST: byte := 5
  const TERMINATE_ACK: byte := 6
  const ECHO_REQUEST: byte := 9
  const ECHO_REPLY: byte := 10

  const HEADER_LEN := 4

  // The largest data a 16-bit length field can announce.
  const MAX_DATA := 0xffff - HEADER_LEN

  // The largest value an 8-bit option length can announce.
  const MAX_OPTION_VALUE := 0xff - 2

  datatype Packet = Packet(protocol: uint16, code: byte, identifier: byte, data: seq<byte>) {

    /** Protocols below 0x8000 carry datagrams and have no control header. */
    predicate IsNetwork() {
      protocol < 0x8000
    }
  }

  datatype DecodeError =
    | NoProtocolField(size: nat)
    | NoControlHeader(size: nat)
    | LengthBelowHeader(length: nat)
    | LengthBeyondFrame(length: nat, available: nat)

  function StripAddressAndControl(frame: seq<byte>): seq<byte> {
    if |frame| >= 2 && frame[0] == 0xff && frame[1] == 0x03 then frame[2..] else frame
  }

  function Decode(frame: seq<byte>): Result<Packet, DecodeError> {
    DecodeBody(|frame|, StripAddressAndControl(frame))
  }

  function DecodeBody(frameSize: nat, body: seq<byte>): Result<Packet, DecodeError> {
    if |body| < 2 then
      Err(NoProtocolField(frameSize))
    else
      var protocol := ReadUint16(body[0], body[1]);
      var content := body[2..];
      if protocol < 0x8000 then
        Ok(Packet(protocol, 0, 0, content))
      else if |content| < HEADER_LEN then
        Err(NoControlHeader(|content|))
      else
        var length := ReadUint16(content[2], content[3]);
        if length < HEADER_LEN then
          Err(LengthBelowHeader(length))
        else if length > |content| then
          Err(LengthBeyondFrame(length, |content|))
        else
          Ok(Packet(protocol, content[0], content[1], content[HEADER_LEN..length]))
  }

  /** The packet without the address and control bytes. */
  function Body(p: Packet): seq<byte> {
    if p.IsNetwork() then
      WriteUint16(p.protocol) + p.data
    else
      WriteUint16(p.protocol) + [p.code, p.identifier]
      + WriteUint16(TruncateToUint16(HEADER_LEN + |p.data|)) + p.data
  }

  function Encode(p: Packet): seq<byte> {
    [0xff, 0x03] + Body(p)
  }

  /** What the wire can express: a network packet has no header fields, a control packet a bounded size. */
  predicate Representable(p: Packet) {
    if p.IsNetwork() then p.code == 0 && p.identifier == 0 else |p.data| <= MAX_DATA
  }

  /** The wire layout of RFC 1661 section 5, stated without parsing: optional address and control
      bytes, the packet, and padding that only a control packet can have. */
  ghost predicate Carries(frame: seq<byte>, p: Packet) {
    exists prefix: seq<byte>, padding: seq<byte> :: CarriesWith(frame, p, prefix, padding)
  }

  ghost predicate CarriesWith(frame: seq<byte>, p: Packet, prefix: seq<byte>, padding: seq<byte>) {
    && frame == prefix + Body(p) + padding
    && (prefix == [0xff, 0x03] || (prefix == [] && p.protocol != 0xff03))
    && (p.IsNetwork() ==> padding == [])
  }

  lemma BodyFields(p: Packet)
    ensures |Body(p)| == (if p.IsNetwork() then 2 else 6) + |p.data|
    ensures ReadUint16(Body(p)[0], Body(p)[1]) == p.protocol
    ensures !p.IsNetwork() ==>
              && Body(p)[2] == p.code && Body(p)[3] == p.identifier
              && ReadUint16(Body(p)[4], Body(p)[5]) == (HEADER_LEN + |p.data|) % 0x1_0000
    ensures Body(p)[if p.IsNetwork() then 2 else 6..] == p.data
  {
  }

  /** Decode accepts exactly the frames that carry a representable packet, and returns that packet. */
  lemma DecodeMeetsLayout(frame: seq<byte>, p: Packet)
    ensures Decode(frame) == Ok(p) <==> Representable(p) && Carries(frame, p)
  {
    if Decode(frame) == Ok(p) {
      DecodedIsCarried(frame, p);
    }
    if Representable(p) && Carries(frame, p) {
      var prefix: seq<byte>, padding: seq<byte> :| CarriesWith(frame, p, prefix, padding);
      CarriedIsDecoded(frame, p, prefix, padding);
    }
  }

  lemma CarriedIsDecoded(frame: seq<byte>, p: Packet, prefix: seq<byte>, padding: seq<byte>)
    requires Representable(p)
    requires CarriesWith(frame, p, prefix, padding)
    ensures Decode(frame) == Ok(p)
  {
    hide DecodeBody, StripAddressAndControl, Body, Representable;
    var body := Body(p) + padding;
    BodyDecodes(|frame|, body, p, padding);
    PrefixIsStripped(frame, prefix, body, p.protocol) by {
      BodyFields(p);
      assert frame == prefix + body;
      assert body[0] == Body(p)[0] && body[1] == Body(p)[1];
    }
  }

  lemma PrefixIsStripped(frame: seq<byte>, prefix: seq<byte>, body: seq<byte>, protocol: uint16)
    requires frame == prefix + body && |body| >= 2 && ReadUint16(body[0], body[1]) == protocol
    requires prefix == [0xff, 0x03] || (prefix == [] && protocol != 0xff03)
    ensures StripAddressAndControl(frame) == body
  {
    if prefix == [] {
      assert frame == body;
    }
  }

  lemma BodyDecodes(frameSize: nat, body: seq<byte>, p: Packet, padding: seq<byte>)
    requires Representable(p) && body == Body(p) + padding
    requires p.IsNetwork() ==> padding == []
    ensures DecodeBody(frameSize, body) == Ok(p)
  {
    hide Body, ReadUint16;
    BodyFields(p);
    assert forall i :: 0 <= i < |Body(p)| ==> body[i] == Body(p)[i];
    if p.IsNetwork() {
      assert body == Body(p);
    } else {
      hide DecodeBody;
      assert body[6..6 + |p.data|] == Body(p)[6..];
      ControlFieldsDecode(frameSize, body, p);
    }
  }

  lemma ControlFieldsDecode(frameSize: nat, body: seq<byte>, p: Packet)
    requires !p.IsNetwork() && 6 + |p.data| <= |body|
    requires ReadUint16(body[0], body[1]) == p.protocol
    requires body[2] == p.code && body[3] == p.identifier
    requires ReadUint16(body[4], body[5]) == HEADER_LEN + |p.data|
    requires body[6..6 + |p.data|] == p.data
    ensures DecodeBody(frameSize, body) == Ok(p)
  {
    hide ReadUint16;
    var content := body[2..];
    assert content[2] == body[4] && content[3] == body[5];
    assert content[HEADER_LEN..HEADER_LEN + |p.data|] == body[6..6 + |p.data|];
  }

  lemma DecodedIsCarried(frame: seq<byte>, p: Packet)
    requires Decode(frame) == Ok(p)
    ensures Representable(p) && Carries(frame, p)
  {
    var body := StripAddressAndControl(frame);
    DecodedPrefix(frame, p, body);
    PrefixIsCarried(frame, p, body, body[|Body(p)|..]);
  }

  lemma PrefixIsCarried(frame: seq<byte>, p: Packet, body: seq<byte>, padding: seq<byte>)
    requires body == StripAddressAndControl(frame) == Body(p) + padding
    requires p.IsNetwork() ==> padding == []
    ensures Carries(frame, p)
  {
    if body == frame {
      assert Body(p)[..2] == WriteUint16(p.protocol);
      assert frame[0] == Body(p)[0] && frame[1] == Body(p)[1];
      assert CarriesWith(frame, p, [], padding) by {
        assert frame == [] + Body(p) + padding;
      }
    } else {
      assert frame == [0xff, 0x03] + body;
      assert CarriesWith(frame, p, [0xff, 0x03], padding) by {
        assert frame == [0xff, 0x03] + Body(p) + padding;
      }
    }
  }

  lemma DecodedPrefix(frame: seq<byte>, p: Packet, body: seq<byte>)
    requires Decode(frame) == Ok(p) && body == StripAddressAndControl(frame)
    ensures Representable(p) && Body(p) <= body
    ensures p.IsNetwork() ==> Body(p) == body
  {
    hide ReadUint16, WriteUint16, TruncateToUint16;
    WriteInvertsRead(body[0], body[1]);
    assert p.protocol == ReadUint16(body[0], body[1]);
    if p.IsNetwork() {
      assert body == [body[0], body[1]] + body[2..];
    } else {
      DecodedControl(|frame|, body, p);
    }
  }

  lemma DecodedControl(frameSize: nat, body: seq<byte>, p: Packet)
    requires DecodeBody(frameSize, body) == Ok(p) && !p.IsNetwork()
    ensures |p.data| <= MAX_DATA && Body(p) <= body
  {
    hide ReadUint16, WriteUint16;
    var content := body[2..];
    var length := ReadUint16(content[2], content[3]);
    assert p.data == content[HEADER_LEN..length] && TruncateToUint16(length) == length;
    WriteInvertsRead(body[0], body[1]);
    WriteInvertsRead(content[2], content[3]);
    assert Body(p) == [body[0], body[1]] + [content[0], content[1]] + [content[2], content[3]] + p.data;
    assert Body(p) == body[..2 + length];
  }

  /** Exactly what a frame is refused for, if it is: too short for a protocol, too short for the header of a control
      packet, or a length that is less than the header or more than there is. */
  lemma BadFrameIsReported(frame: seq<byte>)
    ensures var body := StripAddressAndControl(frame);
            var isControl := |body| >= 2 && body[0] >= 0x80;
            var length := if |body| >= 6 then ReadUint16(body[4], body[5]) else 0;
            && (Decode(frame) == Err(NoProtocolField(|frame|)) <==> |body| < 2)
            && (Decode(frame).Err? && Decode(frame).error.NoControlHeader? <==> isControl && |body| < 6)
            && (Decode(frame) == Err(LengthBelowHeader(length)) <==> isControl && |body| >= 6 && length < 4)
            && (Decode(frame).Err? && Decode(frame).error.LengthBeyondFrame? <==>
                  isControl && |body| >= 6 && length >= 4 && 2 + length > |body|)
            && (Decode(frame).Ok? <==>
                  |body| >= 2 && (isControl ==> |body| >= 6 && 4 <= length <= |body| - 2))
  {
  }

  /** Decode inverts Encode exactly on the representable packets. A longer control packet has its
      length field truncated to 16 bits and never comes back. */
  lemma RoundTrip(p: Packet)
    ensures Decode(Encode(p)) == Ok(p) <==> Representable(p)
  {
    assert Encode(p) == [0xff, 0x03] + Body(p) + [];
    assert CarriesWith(Encode(p), p, [0xff, 0x03], []);
    DecodeMeetsLayout(Encode(p), p);
  }

  /** Re-encoding a decoded frame is a normal form: it decodes to the same packet, re-encoding again
      changes nothing, and it grows by at most the two address and control bytes. */
  lemma NormalForm(frame: seq<byte>, padding: seq<byte>)
    requires Decode(frame).Ok?
    ensures var normal := Encode(Decode(frame).value);
            && Decode(normal) == Decode(frame)
            && Encode(Decode(normal).value) == normal
            && |normal| <= |frame| + 2
            && (|normal| == |frame| + 2 ==> normal == [0xff, 0x03] + frame)
            && (!Decode(frame).value.IsNetwork() ==> Decode(normal + padding) == Decode(frame))
  {
    var p := Decode(frame).value;
    var body := StripAddressAndControl(frame);
    DecodedPrefix(frame, p, body);
    RoundTrip(p);
    if |Encode(p)| == |frame| + 2 {
      assert Body(p) == body == frame;
    }
    if !p.IsNetwork() {
      CarriedIsDecoded(Encode(p) + padding, p, [0xff, 0x03], padding);
    }
  }

  // --- Option lists ---

  datatype LinkOption = LinkOption(kind: byte, value: seq<byte>)

  datatype OptionError =
    | StrayByte
    | LengthTooSmall(kind: byte, length: nat)
    | LengthTooLarge(kind: byte, length: nat, remaining: nat)

  /** What DecodeOptions computes. */
  function ParseOptions(data: seq<byte>): Result<seq<LinkOption>, OptionError> {
    if data == [] then
      Ok([])
    else if |data| < 2 then
      Err(StrayByte)
    else
      var length := data[1];
      if length < 2 then
        Err(LengthTooSmall(data[0], length))
      else if length > |data| then
        Err(LengthTooLarge(data[0], length, |data|))
      else
        var tail :- ParseOptions(data[length..]);
        Ok([LinkOption(data[0], data[2..length])] + tail)
  }

  function RenderOption(option: LinkOption): seq<byte> {
    [option.kind, TruncateToByte(2 + |option.value|)] + option.value
  }

  /** What EncodeOptions computes. */
  function RenderOptions(options: seq<LinkOption>): seq<byte> {
    if options == [] then [] else RenderOption(options[0]) + RenderOptions(options[1..])
  }

  predicate WellSized(options: seq<LinkOption>) {
    forall i :: 0 <= i < |options| ==> |options[i].value| <= MAX_OPTION_VALUE
  }

  function Prepend(options: seq<LinkOption>, r: Result<seq<LinkOption>, OptionError>)
    : Result<seq<LinkOption>, OptionError>
  {
    match r
    case Ok(tail) => Ok(options + tail)
    case Err(e) => Err(e)
  }

  method DecodeOptions(data: seq<byte>) returns (r: Result<seq<LinkOption>, OptionError>)
    ensures r == ParseOptions(data)
  {
    var options: seq<LinkOption> := [];
    var remaining := data;
    assert forall tail: seq<LinkOption> :: options + tail == tail;
    while |remaining| > 0
      invariant ParseOptions(data) == Prepend(options, ParseOptions(remaining))
      decreases |remaining|
    {
      if |remaining| < 2 {
        return Err(StrayByte);
      }
      var length := remaining[1];
      if length < 2 {
        return Err(LengthTooSmall(remaining[0], length));
      }
      if length > |remaining| {
        return Err(LengthTooLarge(remaining[0], length, |remaining|));
      }
      ghost var before := options;
      var option := LinkOption(remaining[0], remaining[2..length]);
      options := options + [option];
      remaining := remaining[length..];
      assert forall tail: seq<LinkOption> :: before + ([option] + tail) == options + tail;
    }
    assert options + [] == options;
    r := Ok(options);
  }

  method EncodeOptions(options: seq<LinkOption>) returns (data: seq<byte>)
    ensures data == RenderOptions(options)
  {
    data := [];
    for i := 0 to |options|
      invariant data + RenderOptions(options[i..]) == RenderOptions(options)
    {
      assert options[i..][1..] == options[i + 1..];
      data := data + [options[i].kind, TruncateToByte(2 + |options[i].value|)];
      data := data + options[i].value;
    }
  }

  /** One turn of the parser, on a list split into its first option and the rest. */
  lemma ParseStep(option: LinkOption, rest: seq<byte>)
    requires |option.value| <= MAX_OPTION_VALUE
    ensures ParseOptions(RenderOption(option) + rest) == Prepend([option], ParseOptions(rest))
  {
    var data := RenderOption(option) + rest;
    assert data[1] == 2 + |option.value|;
    assert data[2..data[1]] == option.value;
    assert data[data[1]..] == rest;
  }

  lemma {:induction false} ParseInvertsRender(options: seq<LinkOption>)
    requires WellSized(options)
    ensures ParseOptions(RenderOptions(options)) == Ok(options)
  {
    if options != [] {
      ParseInvertsRender(options[1..]);
      ParseStep(options[0], RenderOptions(options[1..]));
      assert options == [options[0]] + options[1..];
    }
  }

  lemma FirstOption(data: seq<byte>) returns (option: LinkOption, rest: seq<byte>)
    requires data != [] && ParseOptions(data).Ok?
    ensures |option.value| <= MAX_OPTION_VALUE && data == RenderOption(option) + rest
    ensures |rest| < |data|
  {
    option := LinkOption(data[0], data[2..data[1]]);
    rest := data[data[1]..];
    assert data == data[..data[1]] + rest;
    assert data[..data[1]] == RenderOption(option);
  }

  lemma {:induction false} RenderInvertsParse(data: seq<byte>)
    requires ParseOptions(data).Ok?
    ensures RenderOptions(ParseOptions(data).value) == data
    ensures WellSized(ParseOptions(data).value)
    decreases |data|
  {
    if data != [] {
      var option, rest := FirstOption(data);
      ParseStep(option, rest);
      RenderInvertsParse(rest);
      assert ([option] + ParseOptions(rest).value)[1..] == ParseOptions(rest).value;
    }
  }

  /** The option codec is a bijection: a list survives the trip exactly when every value fits the
      8-bit length, and a byte string parses exactly when it is the rendering of such a list. */
  lemma OptionsRoundTrip(options: seq<LinkOption>, data: seq<byte>)
    ensures ParseOptions(RenderOptions(options)) == Ok(options) <==> WellSized(options)
    ensures ParseOptions(data) == Ok(options) <==> WellSized(options) && data == RenderOptions(options)
  {
    if WellSized(options) {
      ParseInvertsRender(options);
    }
    if ParseOptions(RenderOptions(options)) == Ok(options) {
      RenderInvertsParse(RenderOptions(options));
    }
    if ParseOptions(data) == Ok(options) {
      RenderInvertsParse(data);
    }
  }

  lemma {:induction false} ParseBehind(good: seq<LinkOption>, rest: seq<byte>)
    requires WellSized(good)
    ensures ParseOptions(RenderOptions(good) + rest) == Prepend(good, ParseOptions(rest))
  {
    if good == [] {
      assert RenderOptions(good) + rest == rest;
      assert ParseOptions(rest).Ok? ==> good + ParseOptions(rest).value == ParseOptions(rest).value;
    } else {
      hide ParseOptions, RenderOption;
      var later := RenderOptions(good[1..]) + rest;
      ParseBehind(good[1..], rest);
      ParseStep(good[0], later);
      assert RenderOptions(good) + rest == RenderOption(good[0]) + later;
      assert good == [good[0]] + good[1..];
      if ParseOptions(rest).Ok? {
        Associates([good[0]], good[1..], ParseOptions(rest).value);
      }
    }
  }

  /** Behind any options that can be read, exactly what the first that cannot is refused for. */
  lemma BadOptionIsReported(good: seq<LinkOption>, bad: seq<byte>)
    requires WellSized(good) && bad != []
    ensures var r := ParseOptions(RenderOptions(good) + bad);
            && (|bad| == 1 ==> r == Err(StrayByte))
            && (|bad| > 1 && bad[1] < 2 ==> r == Err(LengthTooSmall(bad[0], bad[1])))
            && (|bad| > 1 && bad[1] > |bad| ==> r == Err(LengthTooLarge(bad[0], bad[1], |bad|)))
  {
    hide RenderOptions;
    ParseBehind(good, bad);
  }

  function RenderedSize(options: seq<LinkOption>): nat {
    if options == [] then 0 else 2 + |options[0].value| + RenderedSize(options[1..])
  }

  lemma {:induction false} RenderSize(options: seq<LinkOption>)
    ensures |RenderOptions(options)| == RenderedSize(options)
  {
    if options != [] {
      RenderSize(options[1..]);
    }
  }
}
