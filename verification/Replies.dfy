/** What the session answers, packet by packet: sections 5.2, 5.4 and 5.6 of RFC 1661. */
module Replies {
  import opened Bytes
  import opened Frames
  import opened LinkOptions
  import opened Packets
  import opened Sessions
  import opened Tunnels

  /** Every decodable LCP request gets exactly one answer under its own identifier: an acknowledgement
      that repeats its options byte for byte when all of them are acceptable, and otherwise a
      rejection that lists exactly the unacceptable ones in their order. */
  lemma LcpRequestIsAnsweredOnce(s: State, p: Packet)
    requires p.code == CONFIGURE_REQUEST && ParseOptions(p.data).Ok?
    ensures var options := ParseOptions(p.data).value;
            var h := LcpStep(s, p, true);
            var agreed := forall i :: 0 <= i < |options| ==>
                            options[i].kind in {LCP_MRU, LCP_ACCM, LCP_MAGIC_NUMBER};
            && h.failure.None? && |h.sent| == 1
            && h.sent[0].protocol == PROTOCOL_LCP && h.sent[0].identifier == p.identifier
            && (if agreed
                then h.sent[0].code == CONFIGURE_ACK && h.sent[0].data == p.data
                     && h.state == s.(lcpRemoteDone := true)
                else h.sent[0].code == CONFIGURE_REJECT && h.state == s
                     && ParseOptions(h.sent[0].data) == Ok(Rejected(options)))
  {
    var options := ParseOptions(p.data).value;
    RenderInvertsParse(p.data);
    NothingRejected(options);
    RejectionIsNoLonger(options);
    if Rejected(options) != [] {
      ParseInvertsRender(Rejected(options));
    }
  }

  lemma {:induction false} PeerAddressIsRead(options: seq<LinkOption>, remoteIP: Option<Quad>)
    ensures ReadPeerAddress(options, remoteIP).failure.None?
            <==> forall i :: 0 <= i < |options| && options[i].kind == IPCP_IP_ADDRESS ==> |options[i].value| == 4
  {
    if options != [] {
      var next := if options[0].kind == IPCP_IP_ADDRESS && |options[0].value| == 4 then Some(options[0].value)
                  else remoteIP;
      PeerAddressIsRead(options[1..], next);
      assert options == [options[0]] + options[1..];
    }
  }

  /** Every IPCP request whose options can be read, and whose addresses have four bytes, is acknowledged under its
      own identifier with its own bytes; any other ends the negotiation, unanswered. */
  lemma IpcpRequestIsAcknowledged(s: State, p: Packet)
    requires p.code == CONFIGURE_REQUEST
    ensures var h := IpcpStep(s, p, true);
            if IsReadableRequest(p) then
              && h.failure.None? && h.sent == [Packet(PROTOCOL_IPCP, CONFIGURE_ACK, p.identifier, p.data)]
              && h.state == s.(ipcpRemoteDone := true, negotiated := h.state.negotiated)
              && h.state.negotiated == s.negotiated.(remoteIP := h.state.negotiated.remoteIP)
            else h.failure.Some? && h.sent == []
  {
    if ParseOptions(p.data).Ok? {
      PeerAddressIsRead(ParseOptions(p.data).value, s.negotiated.remoteIP);
    }
  }

  /** The options can be read, and every address among them has four bytes. */
  predicate IsReadableRequest(p: Packet) {
    && ParseOptions(p.data).Ok?
    && forall i :: 0 <= i < |ParseOptions(p.data).value| && ParseOptions(p.data).value[i].kind == IPCP_IP_ADDRESS ==>
         |ParseOptions(p.data).value[i].value| == 4
  }

  /** The three addresses IPCP negotiates never make a request that cannot be parsed back. */
  lemma IPCPOptionsParse(requested: Config)
    ensures ParseOptions(RenderOptions(IPCPOptions(requested))) == Ok(IPCPOptions(requested))
    ensures |RenderOptions(IPCPOptions(requested))| == 18
  {
    var options := IPCPOptions(requested);
    ParseInvertsRender(options);
    RenderSize(options);
    assert options[1..][1..] == options[2..];
    assert RenderedSize(options) == 6 + RenderedSize(options[1..]);
    assert RenderedSize(options[1..]) == 6 + RenderedSize(options[2..]);
    assert RenderedSize(options[2..]) == 6 + RenderedSize(options[3..]);
  }

  lemma UndisputedOptionsParse(magic: Quad, disputed: seq<LinkOption>)
    ensures var options := UndisputedOptions(magic, disputed);
            ParseOptions(RenderOptions(options)) == Ok(options) && |RenderOptions(options)| <= 10
  {
    var options := UndisputedOptions(magic, disputed);
    ParseInvertsRender(options);
    RenderSize(options);
    if options != [] {
      assert RenderedSize(options) == 2 + |options[0].value| + RenderedSize(options[1..]);
      if |options| == 2 {
        assert RenderedSize(options[1..]) == 6 + RenderedSize(options[2..]);
      }
    }
  }

  predicate IsAnswer(p: Packet) {
    p.code == CONFIGURE_ACK || p.code == CONFIGURE_REJECT
  }

  lemma LcpAnswerFits(s: State, p: Packet, writable: bool)
    requires |p.data| <= MAX_DATA
    ensures var h := AnswerLCPRequest(s, p, writable);
            forall i :: 0 <= i < |h.sent| ==>
              h.sent[i].protocol == PROTOCOL_LCP && IsAnswer(h.sent[i]) && |h.sent[i].data| <= |p.data|
  {
    hide ParseOptions, RenderOptions, Rejected, Accepted, RenderedSize;
    if ParseOptions(p.data).Ok? {
      var options := ParseOptions(p.data).value;
      RenderInvertsParse(p.data);
      NothingRejected(options);
      RejectionIsNoLonger(options);
      RenderSize(options);
      RenderSize(Rejected(options));
    }
  }

  lemma LcpSentFits(s: State, p: Packet, writable: bool)
    requires |p.data| <= MAX_DATA
    ensures var h := LcpStep(s, p, writable);
            forall i :: 0 <= i < |h.sent| ==>
              && h.sent[i].protocol == PROTOCOL_LCP
              && |h.sent[i].data| <= (if IsAnswer(h.sent[i]) then |p.data| else 10)
  {
    hide AnswerLCPRequest, ParseOptions, RenderOptions, UndisputedOptions;
    LcpAnswerFits(s, p, writable);
    if ParseOptions(p.data).Ok? {
      UndisputedOptionsParse(s.magic, ParseOptions(p.data).value);
    }
  }

  lemma IpcpSentFits(s: State, p: Packet, writable: bool)
    requires |p.data| <= MAX_DATA
    ensures var h := IpcpStep(s, p, writable);
            forall i :: 0 <= i < |h.sent| ==>
              && h.sent[i].protocol == PROTOCOL_IPCP
              && |h.sent[i].data| <= (if IsAnswer(h.sent[i]) then |p.data| else 18)
  {
    hide ParseOptions, RenderOptions, IPCPOptions, Adopt, DropRejected, ReadPeerAddress;
    if ParseOptions(p.data).Ok? {
      var options := ParseOptions(p.data).value;
      IPCPOptionsParse(Adopt(options, s.requested).config);
      IPCPOptionsParse(DropRejected(options, s.requested).requested);
    }
  }

  /** Every packet a turn sends decodes back to itself: no length field is truncated. An answer is at
      most two bytes longer than the frame it answers, and everything else is short, so the framing
      accepts whatever a frame of at most 0x1ffe bytes provokes. */
  lemma EverySentPacketFits(s: State, frame: seq<byte>, capacity: nat, i: nat)
    requires i < |TakeTurn(s, frame, capacity).sent|
    ensures var q := TakeTurn(s, frame, capacity).sent[i];
            && Decode(Encode(q)) == Ok(q)
            && |Encode(q)| <= (if IsAnswer(q) then |frame| + 2 else 26)
            && (|frame| <= MAX_FRAME_LEN - 2 ==> Sendable(q) && Framable(Encode(q)))
  {
    hide LcpStep, IpcpStep, DecodeBody, Body, RenderOptions, IPCPOptions, ParseOptions;
    var q := TakeTurn(s, frame, capacity).sent[i];
    var p := Decode(frame).value;
    DecodedPrefix(frame, p, StripAddressAndControl(frame));
    BodyFields(p);
    var h := if p.protocol == PROTOCOL_LCP then LcpStep(s, p, capacity > 0) else IpcpStep(s, p, capacity > 0);
    LcpSentFits(s, p, capacity > 0);
    IpcpSentFits(s, p, capacity > 0);
    IPCPOptionsParse(h.state.requested);
    assert q == if i < |h.sent| then h.sent[i] else SendIPCPRequest(h.state, |h.sent| < capacity).sent[i - |h.sent|];
    RoundTrip(q);
    BodyFields(q);
  }

  /** The two extra bytes are real: the acknowledgement of a bare, unpadded request is exactly two
      bytes longer, so the framing refuses it when the request already fills the largest frame. */
  lemma BareRequestGrowsByTwo(s: State, p: Packet)
    requires p.protocol == PROTOCOL_LCP && p.code == CONFIGURE_REQUEST && Representable(p)
    requires ParseOptions(p.data).Ok? && Rejected(ParseOptions(p.data).value) == []
    ensures var turn := TakeTurn(s, Body(p), 2);
            && |turn.sent| >= 1
            && |Encode(turn.sent[0])| == |Body(p)| + 2
            && (Framable(Encode(turn.sent[0])) <==> |Body(p)| <= MAX_FRAME_LEN - 2)
  {
    BodyFields(p);
    assert CarriesWith(Body(p), p, [], []) by {
      assert Body(p) == [] + Body(p) + [];
    }
    CarriedIsDecoded(Body(p), p, [], []);
    NothingRejected(ParseOptions(p.data).value);
    LcpRequestIsAnsweredOnce(s, p);
    var q := LcpStep(s, p, true).sent[0];
    assert TakeTurn(s, Body(p), 2).sent[0] == q;
    BodyFields(q);
  }
}
