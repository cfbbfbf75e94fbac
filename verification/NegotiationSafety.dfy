/** What a successful negotiation guarantees, over every run against a peer that only answers
    outstanding requests and repeats their options when it acknowledges them. */
module NegotiationSafety {
  import opened Bytes
  import opened LinkOptions
  import opened Packets
  import opened Replies
  import opened Sessions

  // --- Traces ---

  datatype Event = Received(packet: Packet) | Sent(packet: Packet)

  function Writes(sent: seq<Packet>): seq<Event> {
    if sent == [] then [] else [Sent(sent[0])] + Writes(sent[1..])
  }

  /** The packets of one turn: the one decoded from the frame, then those written in response. */
  function TurnEvents(s: State, frame: seq<byte>, capacity: nat): seq<Event> {
    match Decode(frame)
    case Err(_) => []
    case Ok(p) => [Received(p)] + Writes(TakeTurn(s, frame, capacity).sent)
  }

  function LoopTrace(s: State, w: Wire, patience: nat): seq<Event>
    decreases |w.incoming|
  {
    if patience == 0 || w.incoming == [] then []
    else
      var frame := w.incoming[0];
      var turn := TakeTurn(s, frame, w.capacity);
      var w' := AfterWriting(w.(incoming := w.incoming[1..]), turn.sent);
      TurnEvents(s, frame, w.capacity) + if turn.verdict.Continue? then LoopTrace(turn.state, w', patience - 1) else []
  }

  /** Every packet exchanged in a run of Negotiate, in order. */
  function Trace(s: State, w: Wire, patience: nat): seq<Event> {
    var opening := SendLCPRequest(s, w.capacity > 0);
    Writes(opening.sent)
    + if opening.failure.None? then LoopTrace(opening.state, AfterWriting(w, opening.sent), patience) else []
  }

  // --- What a trace says, read from its end ---

  predicate IsResponse(p: Packet) {
    p.code == CONFIGURE_ACK || p.code == CONFIGURE_NAK || p.code == CONFIGURE_REJECT
  }

  predicate SendsRequest(e: Event, protocol: uint16) {
    e.Sent? && e.packet.protocol == protocol && e.packet.code == CONFIGURE_REQUEST
  }

  predicate ReceivesResponse(e: Event, protocol: uint16) {
    e.Received? && e.packet.protocol == protocol && IsResponse(e.packet)
  }

  /** One more event, counted: a response answers a request only if there is one to answer. */
  function Counted(n: nat, e: Event, protocol: uint16): nat {
    if SendsRequest(e, protocol) then n + 1
    else if ReceivesResponse(e, protocol) && n > 0 then n - 1
    else n
  }

  /** Requests sent and not answered yet. */
  function Outstanding(t: seq<Event>, protocol: uint16): nat {
    if t == [] then 0 else Counted(Outstanding(t[..|t| - 1], protocol), t[|t| - 1], protocol)
  }

  function LatestRequest(t: seq<Event>, protocol: uint16): Option<seq<byte>> {
    if t == [] then None
    else
      var last := t[|t| - 1];
      if SendsRequest(last, protocol) then Some(last.packet.data) else LatestRequest(t[..|t| - 1], protocol)
  }

  /** The value of the last option of a kind. */
  function LastValue(options: seq<LinkOption>, kind: byte): Option<seq<byte>> {
    if options == [] then None
    else
      var later := LastValue(options[1..], kind);
      if later.Some? then later
      else if options[0].kind == kind then Some(options[0].value)
      else None
  }

  function OptionsOf(p: Packet): seq<LinkOption> {
    match ParseOptions(p.data)
    case Ok(options) => options
    case Err(_) => []
  }

  /** What the peer wants for an IPCP option: its latest Nak of it, unless a later Reject dropped it. */
  function Suggested(t: seq<Event>, kind: byte): Option<seq<byte>> {
    if t == [] then None
    else
      var last, before := t[|t| - 1], t[..|t| - 1];
      if !ReceivesResponse(last, PROTOCOL_IPCP) then Suggested(before, kind)
      else
        var options := OptionsOf(last.packet);
        if last.packet.code == CONFIGURE_NAK && LastValue(options, kind).Some? then LastValue(options, kind)
        else if last.packet.code == CONFIGURE_REJECT && kind != IPCP_IP_ADDRESS && Mentions(options, kind) then None
        else Suggested(before, kind)
  }

  /** The peer's own address, from the last request in which it gave one. */
  function PeerAddressIn(t: seq<Event>): Option<seq<byte>> {
    if t == [] then None
    else
      var last := t[|t| - 1];
      if last.Received? && last.packet.protocol == PROTOCOL_IPCP && last.packet.code == CONFIGURE_REQUEST
         && LastValue(OptionsOf(last.packet), IPCP_IP_ADDRESS).Some?
      then LastValue(OptionsOf(last.packet), IPCP_IP_ADDRESS)
      else PeerAddressIn(t[..|t| - 1])
  }

  function OrZero(value: Option<seq<byte>>): seq<byte> {
    match value
    case Some(bytes) => bytes
    case None => ZERO
  }

  predicate IsLcpAck(p: Packet) {
    p.protocol == PROTOCOL_LCP && p.code == CONFIGURE_ACK
  }

  ghost predicate AckReceived(t: seq<Event>) {
    exists e :: e in t && e.Received? && IsLcpAck(e.packet)
  }

  ghost predicate AckSent(t: seq<Event>) {
    exists e :: e in t && e.Sent? && IsLcpAck(e.packet)
  }

  /** LCP is open: the peer acknowledged our configuration, and we acknowledged the peer's. */
  ghost predicate LcpOpened(t: seq<Event>) {
    AckReceived(t) && AckSent(t)
  }

  /** The hypothesis on the peer: it answers only an outstanding request, and an acknowledgement
      repeats the options of the latest one. */
  ghost predicate AnswersInTurn(t: seq<Event>, k: nat)
    requires k < |t|
  {
    forall protocol: uint16 ::
      (protocol == PROTOCOL_LCP || protocol == PROTOCOL_IPCP) && ReceivesResponse(t[k], protocol) ==>
        && Outstanding(t[..k], protocol) > 0
        && (t[k].packet.code == CONFIGURE_ACK ==> LatestRequest(t[..k], protocol) == Some(t[k].packet.data))
  }

  ghost predicate Conforming(t: seq<Event>) {
    forall k: nat :: k < |t| ==> AnswersInTurn(t, k)
  }

  /** What holds at every point of the run: one outstanding request at most per protocol, and no IPCP
      request before LCP is open. */
  ghost predicate OrderlyUpTo(t: seq<Event>, k: nat)
    requires k <= |t|
  {
    && Outstanding(t[..k], PROTOCOL_LCP) <= 1
    && Outstanding(t[..k], PROTOCOL_IPCP) <= 1
    && (k < |t| && SendsRequest(t[k], PROTOCOL_IPCP) ==> LcpOpened(t[..k]))
  }

  ghost predicate Orderly(t: seq<Event>) {
    forall k: nat :: k <= |t| ==> OrderlyUpTo(t, k)
  }

  lemma LastEvent(t: seq<Event>, e: Event)
    ensures (t + [e])[|t|] == e && (t + [e])[..|t|] == t
  {
  }

  lemma OrderlyGrows(t: seq<Event>, e: Event)
    requires Orderly(t)
    requires Outstanding(t + [e], PROTOCOL_LCP) <= 1 && Outstanding(t + [e], PROTOCOL_IPCP) <= 1
    requires SendsRequest(e, PROTOCOL_IPCP) ==> LcpOpened(t)
    ensures Orderly(t + [e])
  {
    var t' := t + [e];
    forall k: nat | k <= |t'|
      ensures OrderlyUpTo(t', k)
    {
      if k <= |t| {
        assert OrderlyUpTo(t, k);
        assert t'[..k] == t[..k];
      } else {
        assert t'[..k] == t';
      }
    }
  }

  lemma AcksGrow(t: seq<Event>, e: Event)
    ensures AckReceived(t + [e]) <==> AckReceived(t) || (e.Received? && IsLcpAck(e.packet))
    ensures AckSent(t + [e]) <==> AckSent(t) || (e.Sent? && IsLcpAck(e.packet))
  {
    assert forall x :: x in t + [e] <==> x in t || x == e;
    if e.Received? && IsLcpAck(e.packet) {
      assert e in t + [e];
    }
    if e.Sent? && IsLcpAck(e.packet) {
      assert e in t + [e];
    }
  }

  /** What one more event adds to each reading of the trace. */
  lemma ReadingsGrow(t: seq<Event>, e: Event, kind: byte)
    ensures var t' := t + [e];
            && Outstanding(t', PROTOCOL_LCP) == Counted(Outstanding(t, PROTOCOL_LCP), e, PROTOCOL_LCP)
            && Outstanding(t', PROTOCOL_IPCP) == Counted(Outstanding(t, PROTOCOL_IPCP), e, PROTOCOL_IPCP)
            && LatestRequest(t', PROTOCOL_IPCP)
               == (if SendsRequest(e, PROTOCOL_IPCP) then Some(e.packet.data) else LatestRequest(t, PROTOCOL_IPCP))
            && (!ReceivesResponse(e, PROTOCOL_IPCP) ==> Suggested(t', kind) == Suggested(t, kind))
            && (e.Sent? || e.packet.protocol != PROTOCOL_IPCP || e.packet.code != CONFIGURE_REQUEST ==>
                  PeerAddressIn(t') == PeerAddressIn(t))
  {
    LastEvent(t, e);
  }

  // --- The option loops, against the last-value reading ---

  function Field(c: Config, kind: byte): Option<Quad> {
    if kind == IPCP_IP_ADDRESS then c.localIP
    else if kind == IPCP_PRIMARY_DNS then c.primaryDNS
    else if kind == IPCP_SECOND_DNS then c.secondDNS
    else None
  }

  predicate IsAddressKind(kind: byte) {
    kind == IPCP_IP_ADDRESS || kind == IPCP_PRIMARY_DNS || kind == IPCP_SECOND_DNS
  }

  lemma {:induction false} AdoptTakesLastValues(options: seq<LinkOption>, target: Config, kind: byte)
    requires Adopt(options, target).failure.None? && IsAddressKind(kind)
    ensures var config := Adopt(options, target).config;
            && Field(config, kind)
               == (if LastValue(options, kind).Some? then LastValue(options, kind) else Field(target, kind))
            && config.remoteIP == target.remoteIP
  {
    if options != [] {
      AdoptTakesLastValues(options[1..], AdoptOne(options[0], target).config, kind);
    }
  }

  lemma {:induction false} DropClearsRejected(options: seq<LinkOption>, requested: Config, kind: byte)
    requires !DropRejected(options, requested).addressRejected && IsAddressKind(kind)
    ensures Field(DropRejected(options, requested).requested, kind)
            == (if kind != IPCP_IP_ADDRESS && Mentions(options, kind) then None else Field(requested, kind))
  {
    if options != [] {
      var head, rest := options[0], options[1..];
      var requested' := if head.kind == IPCP_PRIMARY_DNS then requested.(primaryDNS := None)
                        else if head.kind == IPCP_SECOND_DNS then requested.(secondDNS := None)
                        else requested;
      DropClearsRejected(rest, requested', kind);
      MentionsFirst(options, kind);
    }
  }

  lemma MentionsFirst(options: seq<LinkOption>, kind: byte)
    requires options != []
    ensures Mentions(options, kind) <==> options[0].kind == kind || Mentions(options[1..], kind)
  {
    if Mentions(options, kind) && options[0].kind != kind {
      var i :| 0 <= i < |options| && options[i].kind == kind;
      assert options[1..][i - 1].kind == kind;
    }
    if Mentions(options[1..], kind) {
      var i :| 0 <= i < |options[1..]| && options[1..][i].kind == kind;
      assert options[i + 1].kind == kind;
    }
  }

  lemma {:induction false} PeerAddressIsLastValue(options: seq<LinkOption>, remoteIP: Option<Quad>)
    requires ReadPeerAddress(options, remoteIP).failure.None?
    ensures ReadPeerAddress(options, remoteIP).remoteIP
            == (if LastValue(options, IPCP_IP_ADDRESS).Some? then LastValue(options, IPCP_IP_ADDRESS) else remoteIP)
  {
    if options != [] {
      PeerAddressIsLastValue(options[1..],
                             if options[0].kind == IPCP_IP_ADDRESS then Some(options[0].value) else remoteIP);
    }
  }

  lemma RequestedValues(requested: Config, kind: byte)
    requires IsAddressKind(kind)
    ensures LastValue(IPCPOptions(requested), kind) == Some(AddressOrZero(Field(requested, kind)))
  {
    var options := IPCPOptions(requested);
    assert LastValue(options[3..], kind) == None;
    assert options[2..][1..] == options[3..];
    assert LastValue(options[2..], kind) == if kind == IPCP_SECOND_DNS then Some(options[2].value) else None;
    assert options[1..][1..] == options[2..];
    assert LastValue(options[1..], kind) == if kind == IPCP_PRIMARY_DNS then Some(options[1].value)
                                            else LastValue(options[2..], kind);
  }

  // --- The invariant that links the fields of the session to the trace ---

  ghost predicate Linked(t: seq<Event>, s: State) {
    && Orderly(t)
    && Outstanding(t, PROTOCOL_LCP) == (if s.lcpLocalDone then 0 else 1)
    && Outstanding(t, PROTOCOL_IPCP) == (if s.ipcpRequestSent && !s.ipcpLocalDone then 1 else 0)
    && (s.ipcpLocalDone ==> s.ipcpRequestSent)
    && (s.lcpLocalDone ==> AckReceived(t))
    && (s.lcpRemoteDone ==> AckSent(t))
    && (s.ipcpRequestSent ==> s.lcpLocalDone && s.lcpRemoteDone)
    && AddressesLinked(t, s)
  }

  ghost predicate AddressesLinked(t: seq<Event>, s: State) {
    && (s.ipcpRequestSent ==> LatestRequest(t, PROTOCOL_IPCP) == Some(RenderOptions(IPCPOptions(s.requested))))
    && (forall kind: byte :: IsAddressKind(kind) ==> Field(s.requested, kind) == Suggested(t, kind))
    && (s.ipcpLocalDone ==>
          forall kind: byte :: IsAddressKind(kind) ==>
            Field(s.negotiated, kind) == Some(AddressOrZero(Field(s.requested, kind))))
    && s.negotiated.remoteIP == PeerAddressIn(t)
  }

  /** An event that leaves the addresses alone. */
  lemma AddressesStay(t: seq<Event>, e: Event, s: State)
    requires AddressesLinked(t, s)
    requires !ReceivesResponse(e, PROTOCOL_IPCP) && !SendsRequest(e, PROTOCOL_IPCP)
    requires e.Sent? || e.packet.protocol != PROTOCOL_IPCP || e.packet.code != CONFIGURE_REQUEST
    ensures AddressesLinked(t + [e], s)
  {
    forall kind: byte | IsAddressKind(kind)
      ensures Field(s.requested, kind) == Suggested(t + [e], kind)
    {
      ReadingsGrow(t, e, kind);
    }
    ReadingsGrow(t, e, IPCP_IP_ADDRESS);
  }

  /** Sending anything but a request. */
  lemma SendingKeepsLink(t: seq<Event>, s: State, q: Packet)
    requires Linked(t, s) && q.code != CONFIGURE_REQUEST
    ensures Linked(t + [Sent(q)], s)
    ensures IsLcpAck(q) ==> Linked(t + [Sent(q)], s.(lcpRemoteDone := true))
  {
    var e := Sent(q);
    ReadingsGrow(t, e, IPCP_IP_ADDRESS);
    AcksGrow(t, e);
    AddressesStay(t, e, s);
    OrderlyGrows(t, e);
  }

  /** Receiving anything but a response or an IPCP request. */
  lemma ReceivingKeepsLink(t: seq<Event>, s: State, p: Packet)
    requires Linked(t, s)
    requires !ReceivesResponse(Received(p), PROTOCOL_LCP) && !ReceivesResponse(Received(p), PROTOCOL_IPCP)
    requires p.protocol != PROTOCOL_IPCP || p.code != CONFIGURE_REQUEST
    ensures Linked(t + [Received(p)], s)
  {
    var e := Received(p);
    ReadingsGrow(t, e, IPCP_IP_ADDRESS);
    AcksGrow(t, e);
    AddressesStay(t, e, s);
    OrderlyGrows(t, e);
  }

  /** Sending the IPCP request the requested addresses call for, when none is outstanding. */
  lemma IPCPRequestKeepsLink(t: seq<Event>, s: State)
    requires Orderly(t) && LcpOpened(t)
    requires s.lcpLocalDone && s.lcpRemoteDone && !s.ipcpLocalDone
    requires Outstanding(t, PROTOCOL_LCP) == 0 && Outstanding(t, PROTOCOL_IPCP) == 0
    requires forall kind: byte :: IsAddressKind(kind) ==> Field(s.requested, kind) == Suggested(t, kind)
    requires s.negotiated.remoteIP == PeerAddressIn(t)
    ensures var h := SendIPCPRequest(s, true);
            h.sent != [] && Linked(t + [Sent(h.sent[0])], h.state)
  {
    var h := SendIPCPRequest(s, true);
    var e := Sent(h.sent[0]);
    forall kind: byte | IsAddressKind(kind)
      ensures Field(s.requested, kind) == Suggested(t + [e], kind)
    {
      ReadingsGrow(t, e, kind);
    }
    ReadingsGrow(t, e, IPCP_IP_ADDRESS);
    AcksGrow(t, e);
    OrderlyGrows(t, e);
  }

  lemma ResponseWasDue(t: seq<Event>, p: Packet, protocol: uint16)
    requires AnswersInTurn(t + [Received(p)], |t|)
    requires protocol == PROTOCOL_LCP || protocol == PROTOCOL_IPCP
    requires p.protocol == protocol && IsResponse(p)
    ensures Outstanding(t, protocol) > 0
    ensures p.code == CONFIGURE_ACK ==> LatestRequest(t, protocol) == Some(p.data)
  {
    LastEvent(t, Received(p));
    assert ReceivesResponse((t + [Received(p)])[|t|], protocol);
  }

  /** An LCP response takes the outstanding request away. */
  lemma LcpResponseArrives(t: seq<Event>, s: State, p: Packet)
    requires Linked(t, s) && p.protocol == PROTOCOL_LCP && IsResponse(p)
    requires AnswersInTurn(t + [Received(p)], |t|)
    ensures var t' := t + [Received(p)];
            && Orderly(t') && !s.lcpLocalDone && Outstanding(t', PROTOCOL_LCP) == 0
            && (p.code == CONFIGURE_ACK ==> Linked(t', s.(lcpLocalDone := true)))
            && AddressesLinked(t', s)
            && Outstanding(t', PROTOCOL_IPCP) == Outstanding(t, PROTOCOL_IPCP)
            && (s.lcpRemoteDone ==> AckSent(t'))
  {
    var e := Received(p);
    ResponseWasDue(t, p, PROTOCOL_LCP);
    ReadingsGrow(t, e, IPCP_IP_ADDRESS);
    AcksGrow(t, e);
    AddressesStay(t, e, s);
    OrderlyGrows(t, e);
  }

  lemma LcpRequestKeepsLink(t: seq<Event>, s: State, s': State, q: Packet)
    requires Orderly(t) && !s.lcpLocalDone && Outstanding(t, PROTOCOL_LCP) == 0
    requires Outstanding(t, PROTOCOL_IPCP) == 0 && !s.ipcpRequestSent && !s.ipcpLocalDone
    requires AddressesLinked(t, s) && (s.lcpRemoteDone ==> AckSent(t))
    requires SendsRequest(Sent(q), PROTOCOL_LCP) && s' == s.(identifier := s'.identifier)
    ensures Linked(t + [Sent(q)], s')
  {
    var e := Sent(q);
    ReadingsGrow(t, e, IPCP_IP_ADDRESS);
    AcksGrow(t, e);
    AddressesStay(t, e, s);
    OrderlyGrows(t, e);
  }

  lemma WritesOf(sent: seq<Packet>)
    ensures |sent| == 1 ==> Writes(sent) == [Sent(sent[0])]
    ensures |sent| == 2 ==> Writes(sent) == [Sent(sent[0]), Sent(sent[1])]
  {
    if |sent| >= 1 {
      assert Writes(sent) == [Sent(sent[0])] + Writes(sent[1..]);
      if |sent| == 2 {
        assert Writes(sent[1..]) == [Sent(sent[1])] + Writes(sent[2..]);
      }
    }
  }

  /** What a handled packet leaves: the link holds if it did not fail, and order holds in any case. */
  ghost predicate Kept(t: seq<Event>, p: Packet, h: Handled) {
    var t' := t + [Received(p)] + Writes(h.sent);
    Orderly(t') && (h.failure.None? ==> Linked(t', h.state))
  }

  lemma NothingSent(t: seq<Event>, p: Packet, h: Handled)
    requires h.sent == [] && Orderly(t + [Received(p)])
    requires h.failure.None? ==> Linked(t + [Received(p)], h.state)
    ensures Kept(t, p, h)
  {
    assert t + [Received(p)] + [] == t + [Received(p)];
  }

  lemma LcpStepKeepsLink(t: seq<Event>, s: State, p: Packet, writable: bool)
    requires Linked(t, s) && p.protocol == PROTOCOL_LCP
    requires AnswersInTurn(t + [Received(p)], |t|)
    ensures Kept(t, p, LcpStep(s, p, writable))
  {
    var h := LcpStep(s, p, writable);
    var t' := t + [Received(p)];
    WritesOf(h.sent);
    if IsResponse(p) {
      LcpResponseArrives(t, s, p);
      if h.sent == [] {
        NothingSent(t, p, h);
      } else {
        LcpRequestKeepsLink(t', s, h.state, h.sent[0]);
      }
    } else {
      ReceivingKeepsLink(t, s, p);
      if h.sent == [] {
        NothingSent(t, p, h);
      } else {
        SendingKeepsLink(t', s, h.sent[0]);
      }
    }
  }

  /** An IPCP response takes the outstanding request away, and moves the suggestions with it. */
  lemma IpcpResponseArrives(t: seq<Event>, s: State, p: Packet)
    requires Linked(t, s) && p.protocol == PROTOCOL_IPCP && IsResponse(p)
    requires AnswersInTurn(t + [Received(p)], |t|)
    ensures var t' := t + [Received(p)];
            && Orderly(t') && LcpOpened(t') && s.ipcpRequestSent && !s.ipcpLocalDone
            && s.lcpLocalDone && s.lcpRemoteDone
            && Outstanding(t', PROTOCOL_LCP) == 0 && Outstanding(t', PROTOCOL_IPCP) == 0
            && PeerAddressIn(t') == PeerAddressIn(t)
            && LatestRequest(t', PROTOCOL_IPCP) == LatestRequest(t, PROTOCOL_IPCP)
            && (p.code == CONFIGURE_ACK ==> p.data == RenderOptions(IPCPOptions(s.requested)))
  {
    hide Orderly, Outstanding, LatestRequest, PeerAddressIn, AckReceived, AckSent, AddressesLinked, IPCPOptions;
    var e := Received(p);
    RefusedOrAckedRequest(t, s, p);
    ReadingsGrow(t, e, IPCP_IP_ADDRESS);
    AcksGrow(t, e);
    OrderlyGrows(t, e);
  }

  /** The session had an IPCP request outstanding, and an acknowledgement repeats it. */
  lemma RefusedOrAckedRequest(t: seq<Event>, s: State, p: Packet)
    requires Linked(t, s) && p.protocol == PROTOCOL_IPCP && IsResponse(p)
    requires AnswersInTurn(t + [Received(p)], |t|)
    ensures s.ipcpRequestSent && !s.ipcpLocalDone
    ensures p.code == CONFIGURE_ACK ==> p.data == RenderOptions(IPCPOptions(s.requested))
  {
    hide Orderly, AckReceived, AckSent, RenderOptions, IPCPOptions;
    ResponseWasDue(t, p, PROTOCOL_IPCP);
  }

  lemma SuggestionsMove(t: seq<Event>, p: Packet, kind: byte)
    requires p.protocol == PROTOCOL_IPCP && IsResponse(p)
    ensures var options := OptionsOf(p);
            Suggested(t + [Received(p)], kind)
            == (if p.code == CONFIGURE_NAK && LastValue(options, kind).Some? then LastValue(options, kind)
                else if p.code == CONFIGURE_REJECT && kind != IPCP_IP_ADDRESS && Mentions(options, kind) then None
                else Suggested(t, kind))
  {
    LastEvent(t, Received(p));
  }

  lemma IpcpAckKeepsLink(t: seq<Event>, s: State, p: Packet, writable: bool)
    requires Linked(t, s) && p.protocol == PROTOCOL_IPCP && p.code == CONFIGURE_ACK
    requires AnswersInTurn(t + [Received(p)], |t|)
    ensures Kept(t, p, IpcpStep(s, p, writable))
  {
    IpcpResponseArrives(t, s, p);
    var h := IpcpStep(s, p, writable);
    IPCPOptionsParse(s.requested);
    var options := IPCPOptions(s.requested);
    forall kind: byte | IsAddressKind(kind)
      ensures Field(s.requested, kind) == Suggested(t + [Received(p)], kind)
      ensures h.failure.None? ==> Field(h.state.negotiated, kind) == Some(AddressOrZero(Field(s.requested, kind)))
    {
      SuggestionsMove(t, p, kind);
      RequestedValues(s.requested, kind);
      if h.failure.None? {
        AdoptTakesLastValues(options, s.negotiated, kind);
      }
    }
    if h.failure.None? {
      AdoptTakesLastValues(options, s.negotiated, IPCP_IP_ADDRESS);
    }
    NothingSent(t, p, h);
  }

  /** A Nak or a Reject moves the requested addresses exactly as the trace says. */
  lemma RequestedFollowSuggestions(t: seq<Event>, s: State, p: Packet, requested: Config)
    requires Linked(t, s) && p.protocol == PROTOCOL_IPCP && ParseOptions(p.data).Ok?
    requires p.code == CONFIGURE_NAK || p.code == CONFIGURE_REJECT
    requires p.code == CONFIGURE_NAK ==>
               Adopt(OptionsOf(p), s.requested) == Adopted(requested, None)
    requires p.code == CONFIGURE_REJECT ==>
               DropRejected(OptionsOf(p), s.requested) == Dropped(requested, false)
    ensures forall kind: byte :: IsAddressKind(kind) ==>
              Field(requested, kind) == Suggested(t + [Received(p)], kind)
  {
    forall kind: byte | IsAddressKind(kind)
      ensures Field(requested, kind) == Suggested(t + [Received(p)], kind)
    {
      SuggestionsMove(t, p, kind);
      if p.code == CONFIGURE_NAK {
        AdoptTakesLastValues(OptionsOf(p), s.requested, kind);
      } else {
        DropClearsRejected(OptionsOf(p), s.requested, kind);
      }
    }
  }

  lemma IpcpRefusalKeepsLink(t: seq<Event>, s: State, p: Packet, writable: bool)
    requires Linked(t, s) && p.protocol == PROTOCOL_IPCP
    requires p.code == CONFIGURE_NAK || p.code == CONFIGURE_REJECT
    requires AnswersInTurn(t + [Received(p)], |t|)
    ensures Kept(t, p, IpcpStep(s, p, writable))
  {
    IpcpResponseArrives(t, s, p);
    var h := IpcpStep(s, p, writable);
    if h.sent == [] {
      NothingSent(t, p, h);
    } else {
      var requested := if p.code == CONFIGURE_NAK then Adopt(OptionsOf(p), s.requested).config
                       else DropRejected(OptionsOf(p), s.requested).requested;
      RequestedFollowSuggestions(t, s, p, requested);
      WritesOf(h.sent);
      IPCPRequestKeepsLink(t + [Received(p)], s.(requested := requested));
    }
  }

  lemma IpcpRequestArrives(t: seq<Event>, s: State, p: Packet)
    requires Linked(t, s) && p.protocol == PROTOCOL_IPCP && p.code == CONFIGURE_REQUEST
    ensures Orderly(t + [Received(p)])
    ensures ParseOptions(p.data).Ok? ==>
              var peer := ReadPeerAddress(OptionsOf(p), s.negotiated.remoteIP);
              peer.failure.None? ==>
                Linked(t + [Received(p)], s.(negotiated := s.negotiated.(remoteIP := peer.remoteIP)))
  {
    var e := Received(p);
    ReadingsGrow(t, e, IPCP_IP_ADDRESS);
    AcksGrow(t, e);
    OrderlyGrows(t, e);
    if ParseOptions(p.data).Ok? {
      var peer := ReadPeerAddress(OptionsOf(p), s.negotiated.remoteIP);
      if peer.failure.None? {
        PeerAddressIsLastValue(OptionsOf(p), s.negotiated.remoteIP);
        LastEvent(t, e);
        forall kind: byte | IsAddressKind(kind)
          ensures Field(s.requested, kind) == Suggested(t + [e], kind)
        {
          ReadingsGrow(t, e, kind);
        }
      }
    }
  }

  lemma IpcpStepKeepsLink(t: seq<Event>, s: State, p: Packet, writable: bool)
    requires Linked(t, s) && p.protocol == PROTOCOL_IPCP
    requires AnswersInTurn(t + [Received(p)], |t|)
    ensures Kept(t, p, IpcpStep(s, p, writable))
  {
    var h := IpcpStep(s, p, writable);
    var t' := t + [Received(p)];
    WritesOf(h.sent);
    if p.code == CONFIGURE_ACK {
      IpcpAckKeepsLink(t, s, p, writable);
    } else if IsResponse(p) {
      IpcpRefusalKeepsLink(t, s, p, writable);
    } else if p.code == CONFIGURE_REQUEST {
      IpcpRequestArrives(t, s, p);
      if h.sent == [] {
        NothingSent(t, p, h);
      } else {
        var s' := s.(negotiated := h.state.negotiated);
        SendingKeepsLink(t', s', h.sent[0]);
      }
    } else {
      ReceivingKeepsLink(t, s, p);
      if h.sent == [] {
        NothingSent(t, p, h);
      } else {
        SendingKeepsLink(t', s, h.sent[0]);
      }
    }
  }

  lemma TurnKeepsLink(t: seq<Event>, s: State, frame: seq<byte>, capacity: nat)
    requires Linked(t, s)
    requires Decode(frame).Ok? ==> AnswersInTurn(t + [Received(Decode(frame).value)], |t|)
    ensures var t' := t + TurnEvents(s, frame, capacity);
            var turn := TakeTurn(s, frame, capacity);
            Orderly(t') && (!turn.verdict.Fail? ==> Linked(t', turn.state))
  {
    var turn := TakeTurn(s, frame, capacity);
    if Decode(frame).Err? {
      assert t + [] == t;
    } else {
      var p := Decode(frame).value;
      if p.protocol == PROTOCOL_LCP || p.protocol == PROTOCOL_IPCP {
        var h := if p.protocol == PROTOCOL_LCP then LcpStep(s, p, capacity > 0) else IpcpStep(s, p, capacity > 0);
        if p.protocol == PROTOCOL_LCP {
          LcpStepKeepsLink(t, s, p, capacity > 0);
        } else {
          IpcpStepKeepsLink(t, s, p, capacity > 0);
        }
        AfterHandlingKeepsLink(t, p, h, capacity);
      } else {
        ReceivingKeepsLink(t, s, p);
        assert TurnEvents(s, frame, capacity) == [Received(p)];
      }
    }
  }

  lemma AfterHandlingKeepsLink(t: seq<Event>, p: Packet, h: Handled, capacity: nat)
    requires Kept(t, p, h) && |h.sent| <= capacity
    ensures var turn := AfterHandling(h, capacity);
            var t' := t + ([Received(p)] + Writes(turn.sent));
            Orderly(t') && (!turn.verdict.Fail? ==> Linked(t', turn.state))
  {
    hide Outstanding, LatestRequest, AckReceived, AckSent, RenderOptions, IPCPOptions;
    var turn := AfterHandling(h, capacity);
    var mid := t + [Received(p)] + Writes(h.sent);
    assert mid == t + ([Received(p)] + Writes(h.sent));
    if turn.sent != h.sent {
      var request := turn.sent[|h.sent|];
      assert turn.sent == h.sent + [request];
      WritesAppend(h.sent, [request]);
      WritesOf([request]);
      assert t + ([Received(p)] + Writes(turn.sent)) == mid + [Sent(request)];
      IPCPRequestKeepsLink(mid, h.state);
    }
  }

  lemma {:induction false} WritesAppend(a: seq<Packet>, b: seq<Packet>)
    ensures Writes(a + b) == Writes(a) + Writes(b)
  {
    if a == [] {
      assert a + b == b;
    } else {
      var both := a + b;
      assert both[0] == a[0] && both[1..] == a[1..] + b;
      WritesAppend(a[1..], b);
      Associates([Sent(a[0])], Writes(a[1..]), Writes(b));
    }
  }

  // --- The whole run ---

  /** The configuration a successful run returns, read off its trace. */
  ghost predicate Agreed(t: seq<Event>, config: Config) {
    && LcpOpened(t)
    && config.localIP == Some(OrZero(Suggested(t, IPCP_IP_ADDRESS)))
    && config.primaryDNS == Some(OrZero(Suggested(t, IPCP_PRIMARY_DNS)))
    && config.secondDNS == Some(OrZero(Suggested(t, IPCP_SECOND_DNS)))
    && config.remoteIP == PeerAddressIn(t)
    && LatestRequest(t, PROTOCOL_IPCP) == Some(RenderOptions(IPCPOptions(config)))
  }

  lemma LinkedIsAgreed(t: seq<Event>, s: State)
    requires Linked(t, s) && s.ipcpLocalDone
    ensures Agreed(t, s.negotiated)
  {
    assert IsAddressKind(IPCP_IP_ADDRESS) && IsAddressKind(IPCP_PRIMARY_DNS) && IsAddressKind(IPCP_SECOND_DNS);
    assert Field(s.requested, IPCP_IP_ADDRESS) == s.requested.localIP;
    assert Field(s.requested, IPCP_PRIMARY_DNS) == s.requested.primaryDNS;
    assert Field(s.requested, IPCP_SECOND_DNS) == s.requested.secondDNS;
    assert Field(s.negotiated, IPCP_IP_ADDRESS) == s.negotiated.localIP;
    assert Field(s.negotiated, IPCP_PRIMARY_DNS) == s.negotiated.primaryDNS;
    assert Field(s.negotiated, IPCP_SECOND_DNS) == s.negotiated.secondDNS;
    assert IPCPOptions(s.negotiated) == IPCPOptions(s.requested);
  }

  lemma ConformingPrefix(t: seq<Event>, p: Packet, rest: seq<Event>)
    requires Conforming(t + ([Received(p)] + rest))
    ensures AnswersInTurn(t + [Received(p)], |t|)
  {
    var all := t + ([Received(p)] + rest);
    assert AnswersInTurn(all, |t|);
    assert all[..|t|] == t == (t + [Received(p)])[..|t|];
    assert all[|t|] == Received(p) == (t + [Received(p)])[|t|];
  }

  /** One turn of a run that conforms so far: its events extend the trace and keep the link. */
  lemma TurnOfConformingRun(t: seq<Event>, s: State, frame: seq<byte>, capacity: nat, later: seq<Event>)
    requires Linked(t, s)
    requires Conforming(t + (TurnEvents(s, frame, capacity) + later))
    ensures var t' := t + TurnEvents(s, frame, capacity);
            var turn := TakeTurn(s, frame, capacity);
            && Orderly(t')
            && (!turn.verdict.Fail? ==> Linked(t', turn.state))
            && (turn.verdict.Done? ==> Agreed(t', turn.state.negotiated))
  {
    hide TakeTurn, Decode, Linked, Orderly, Agreed, Conforming, AnswersInTurn;
    var turn := TakeTurn(s, frame, capacity);
    if Decode(frame).Ok? {
      var p := Decode(frame).value;
      var rest := Writes(turn.sent) + later;
      assert TurnEvents(s, frame, capacity) + later == [Received(p)] + rest;
      ConformingPrefix(t, p, rest);
    }
    TurnKeepsLink(t, s, frame, capacity);
    if turn.verdict.Done? {
      DoneHasAck(s, frame, capacity);
      LinkedIsAgreed(t + TurnEvents(s, frame, capacity), turn.state);
    }
  }

  lemma {:induction false} LoopIsSafe(t: seq<Event>, s: State, w: Wire, patience: nat)
    requires Linked(t, s)
    requires Conforming(t + LoopTrace(s, w, patience))
    ensures Orderly(t + LoopTrace(s, w, patience))
    ensures Loop(s, w, patience).result.Ok? ==> Agreed(t + LoopTrace(s, w, patience), Loop(s, w, patience).result.value)
    decreases |w.incoming|
  {
    hide TakeTurn, TurnEvents, Sessions.Frames, Conforming, OrderlyUpTo, Agreed, AddressesLinked, Outstanding;
    if patience == 0 || w.incoming == [] {
      assert t + [] == t;
      assert Orderly(t);
      return;
    } else {
      hide Linked, Orderly;
      var frame := w.incoming[0];
      var turn := TakeTurn(s, frame, w.capacity);
      var w' := AfterWriting(w.(incoming := w.incoming[1..]), turn.sent);
      var events := TurnEvents(s, frame, w.capacity);
      if turn.verdict.Continue? {
        var later := LoopTrace(turn.state, w', patience - 1);
        assert LoopTrace(s, w, patience) == events + later;
        TurnOfConformingRun(t, s, frame, w.capacity, later);
        assert t + (events + later) == (t + events) + later;
        LoopIsSafe(t + events, turn.state, w', patience - 1);
        assert Loop(s, w, patience) == Loop(turn.state, w', patience - 1);
      } else {
        assert events + [] == events;
        assert LoopTrace(s, w, patience) == events;
        TurnOfConformingRun(t, s, frame, w.capacity, []);
      }
    }
  }

  lemma DoneHasAck(s: State, frame: seq<byte>, capacity: nat)
    requires TakeTurn(s, frame, capacity).verdict.Done?
    ensures TakeTurn(s, frame, capacity).state.ipcpLocalDone
  {
    hide Decode, LcpStep, IpcpStep, SendIPCPRequest;
  }

  lemma OpeningIsLinked(magic: Quad, q: Packet, s: State)
    requires SendsRequest(Sent(q), PROTOCOL_LCP) && s == NewState(magic).(identifier := s.identifier)
    ensures Linked([Sent(q)], s)
  {
    var t: seq<Event> := [];
    forall k: nat | k <= |t|
      ensures OrderlyUpTo(t, k)
    {
    }
    ReadingsGrow(t, Sent(q), IPCP_IP_ADDRESS);
    LcpRequestKeepsLink(t, NewState(magic), s, q);
    assert t + [Sent(q)] == [Sent(q)];
  }

  /** For every run of Negotiate in which the peer answers in turn: at no point is more than one
      request outstanding, no IPCP request goes out before LCP is open, and a successful run has LCP
      opened in both directions and returns the addresses of the last request sent, which are the
      peer's latest suggestions with the rejected ones cleared. */
  lemma NegotiationIsSafe(magic: Quad, w: Wire, patience: nat)
    requires Conforming(Trace(NewState(magic), w, patience))
    ensures var t := Trace(NewState(magic), w, patience);
            var result := Negotiation(NewState(magic), w, patience).result;
            Orderly(t) && (result.Ok? ==> Agreed(t, result.value))
  {
    var s := NewState(magic);
    var opening := SendLCPRequest(s, w.capacity > 0);
    if opening.failure.None? {
      WritesOf(opening.sent);
      var t := [Sent(opening.sent[0])];
      OpeningIsLinked(magic, opening.sent[0], opening.state);
      LoopIsSafe(t, opening.state, AfterWriting(w, opening.sent), patience);
    } else {
      var t := Trace(s, w, patience);
      assert t == [];
      forall k: nat | k <= |t|
        ensures OrderlyUpTo(t, k)
      {
      }
    }
  }

  /** Without the hypothesis the guarantee is lost: a peer that acknowledges an IPCP request nobody
      sent, and then makes its own, gets a successful negotiation over a link whose LCP never opened
      and without any address. */
  lemma UnaskedAnswersBreakTheGuarantee(magic: Quad)
    ensures var ack := Encode(Packet(PROTOCOL_IPCP, CONFIGURE_ACK, 1, []));
            var request := Encode(Packet(PROTOCOL_IPCP, CONFIGURE_REQUEST, 1, []));
            var run := Negotiation(NewState(magic), Wire([ack, request], [], 3), 3);
            run.result == Ok(NO_CONFIG) && !run.state.lcpLocalDone && !run.state.lcpRemoteDone
  {
    var a := Packet(PROTOCOL_IPCP, CONFIGURE_ACK, 1, []);
    var r := Packet(PROTOCOL_IPCP, CONFIGURE_REQUEST, 1, []);
    RoundTrip(a);
    RoundTrip(r);
    var s0 := NewState(magic);
    var s1 := SendLCPRequest(s0, true).state;
    var t1 := TakeTurn(s1, Encode(a), 2);
    assert t1 == Turn(s1.(ipcpLocalDone := true), [], Continue);
    var t2 := TakeTurn(t1.state, Encode(r), 2);
    assert t2.verdict == Done && t2.state.negotiated == NO_CONFIG;
    var w := AfterWriting(Wire([Encode(a), Encode(r)], [], 3), SendLCPRequest(s0, true).sent);
    assert w.incoming[1..] == [Encode(r)];
    var w' := AfterWriting(w.(incoming := w.incoming[1..]), []);
    assert Loop(s1, w, 3) == Loop(t1.state, w', 2);
    assert Loop(t1.state, w', 2).result == Ok(NO_CONFIG);
  }
}
