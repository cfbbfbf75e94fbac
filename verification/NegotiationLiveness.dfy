/** Negotiation with a well-behaved peer always ends, and ends in success: the session and the peer as
    one closed system, joined by two queues of frames, under every interleaving. */
module NegotiationLiveness {
  import opened Bytes
  import opened LinkOptions
  import opened NegotiationSafety
  import opened Packets
  import opened Replies
  import opened Sessions

  // --- Frames a well-behaved peer may send ---

  predicate AddressesFit(options: seq<LinkOption>) {
    forall i :: 0 <= i < |options| && IsAddressKind(options[i].kind) ==> |options[i].value| == 4
  }

  predicate ParsesWithAddresses(p: Packet) {
    ParseOptions(p.data).Ok? && AddressesFit(ParseOptions(p.data).value)
  }

  predicate BenignPacket(p: Packet) {
    if p.protocol == PROTOCOL_LCP then
      && p.code != TERMINATE_REQUEST
      && (p.code == CONFIGURE_REQUEST || p.code == CONFIGURE_NAK || p.code == CONFIGURE_REJECT ==>
            ParseOptions(p.data).Ok?)
    else if p.protocol == PROTOCOL_IPCP then
      && (p.code == CONFIGURE_REQUEST || p.code == CONFIGURE_ACK || p.code == CONFIGURE_NAK ==> ParsesWithAddresses(p))
      && (p.code == CONFIGURE_REJECT ==>
            ParseOptions(p.data).Ok? && !Mentions(ParseOptions(p.data).value, IPCP_IP_ADDRESS))
    else true
  }

  /** Nothing in the frame ends the negotiation: no termination, no rejected address, no option list
      that cannot be read. Frames that cannot be decoded are harmless. */
  predicate Benign(frame: seq<byte>) {
    Decode(frame).Ok? ==> BenignPacket(Decode(frame).value)
  }

  predicate IsRequestPacket(p: Packet, protocol: uint16) {
    p.protocol == protocol && p.code == CONFIGURE_REQUEST
  }

  predicate IsResponsePacket(p: Packet, protocol: uint16) {
    p.protocol == protocol && IsResponse(p)
  }

  predicate IsRequest(frame: seq<byte>, protocol: uint16) {
    Decode(frame).Ok? && IsRequestPacket(Decode(frame).value, protocol)
  }

  predicate AnswersNothing(frame: seq<byte>) {
    Decode(frame).Ok? ==>
      !IsResponsePacket(Decode(frame).value, PROTOCOL_LCP) && !IsResponsePacket(Decode(frame).value, PROTOCOL_IPCP)
  }

  /** The peer's own LCP request, with nothing in it for the client to reject. */
  predicate AcceptableLcpRequest(frame: seq<byte>) {
    && IsRequest(frame, PROTOCOL_LCP)
    && ParseOptions(Decode(frame).value.data).Ok?
    && Rejected(ParseOptions(Decode(frame).value.data).value) == []
  }

  predicate Acknowledges(response: seq<byte>, request: Packet) {
    && Decode(response).Ok?
    && Decode(response).value.protocol == request.protocol
    && Decode(response).value.code == CONFIGURE_ACK
    && Decode(response).value.data == request.data
  }

  predicate Refuses(response: seq<byte>, request: Packet) {
    && Decode(response).Ok? && Benign(response)
    && Decode(response).value.protocol == request.protocol
    && (Decode(response).value.code == CONFIGURE_NAK || Decode(response).value.code == CONFIGURE_REJECT)
  }

  // --- The closed system ---

  /** The peer still owes its own two requests, and may spend `budget` further messages as it likes:
      Naks, Rejects, echoes, requests to be rejected, foreign protocols, garbage. */
  datatype Peer = Peer(lcpRequestDue: bool, ipcpRequestDue: bool, budget: nat)

  datatype Status = Running | Succeeded | Failed

  datatype System = System(
    session: State, status: Status,
    toPeer: seq<seq<byte>>, toClient: seq<seq<byte>>,
    peer: Peer,
    consumed: seq<seq<byte>>)

  datatype Move =
    | ClientReads
    | PeerAcknowledges(response: seq<byte>)
    | PeerRefuses(response: seq<byte>)
    | PeerConsumes
    | PeerRequestsLcp(frame: seq<byte>)
    | PeerRequestsIpcp(frame: seq<byte>)
    | PeerSpends(frame: seq<byte>)

  predicate HeadIsRequest(frames: seq<seq<byte>>) {
    frames != [] && (IsRequest(frames[0], PROTOCOL_LCP) || IsRequest(frames[0], PROTOCOL_IPCP))
  }

  predicate Enabled(a: System, m: Move) {
    match m
    case ClientReads => a.status.Running? && a.toClient != []
    case PeerAcknowledges(r) => HeadIsRequest(a.toPeer) && Acknowledges(r, Decode(a.toPeer[0]).value)
    case PeerRefuses(r) => a.peer.budget > 0 && HeadIsRequest(a.toPeer) && Refuses(r, Decode(a.toPeer[0]).value)
    case PeerConsumes => a.toPeer != [] && !HeadIsRequest(a.toPeer)
    case PeerRequestsLcp(f) => a.peer.lcpRequestDue && AcceptableLcpRequest(f)
    case PeerRequestsIpcp(f) => a.peer.ipcpRequestDue && IsRequest(f, PROTOCOL_IPCP) && Benign(f)
    case PeerSpends(f) => a.peer.budget > 0 && Benign(f) && AnswersNothing(f)
  }

  function After(a: System, m: Move): System
    requires Enabled(a, m)
  {
    match m
    case ClientReads =>
      var turn := TakeTurn(a.session, a.toClient[0], 2);
      var status := match turn.verdict case Continue => Running case Done => Succeeded case Fail(_) => Failed;
      System(turn.state, status, a.toPeer + Sessions.Frames(turn.sent), a.toClient[1..], a.peer,
             a.consumed + [a.toClient[0]])
    case PeerAcknowledges(r) => a.(toPeer := a.toPeer[1..], toClient := a.toClient + [r])
    case PeerRefuses(r) => a.(toPeer := a.toPeer[1..], toClient := a.toClient + [r],
                              peer := a.peer.(budget := a.peer.budget - 1))
    case PeerConsumes => a.(toPeer := a.toPeer[1..])
    case PeerRequestsLcp(f) => a.(toClient := a.toClient + [f], peer := a.peer.(lcpRequestDue := false))
    case PeerRequestsIpcp(f) => a.(toClient := a.toClient + [f], peer := a.peer.(ipcpRequestDue := false))
    case PeerSpends(f) => a.(toClient := a.toClient + [f], peer := a.peer.(budget := a.peer.budget - 1))
  }

  /** Negotiate has just sent its opening request. */
  function Start(magic: Quad, budget: nat): System {
    var opening := SendLCPRequest(NewState(magic), true);
    System(opening.state, Running, Sessions.Frames(opening.sent), [], Peer(true, true, budget), [])
  }

  predicate ValidRun(a: System, moves: seq<Move>)
    decreases |moves|
  {
    moves == [] || (Enabled(a, moves[0]) && ValidRun(After(a, moves[0]), moves[1..]))
  }

  function Run(a: System, moves: seq<Move>): System
    requires ValidRun(a, moves)
    decreases |moves|
  {
    if moves == [] then a else Run(After(a, moves[0]), moves[1..])
  }

  // --- Gauges over the queues ---

  datatype Gauge = LcpRequests | LcpResponses | IpcpRequests | IpcpResponses | WorkForPeer | WorkForClient

  function Bit(b: bool): nat {
    if b then 1 else 0
  }

  function PacketReading(g: Gauge, p: Packet): nat {
    match g
    case LcpRequests => Bit(IsRequestPacket(p, PROTOCOL_LCP))
    case LcpResponses => Bit(IsResponsePacket(p, PROTOCOL_LCP))
    case IpcpRequests => Bit(IsRequestPacket(p, PROTOCOL_IPCP))
    case IpcpResponses => Bit(IsResponsePacket(p, PROTOCOL_IPCP))
    case WorkForPeer => if IsRequestPacket(p, PROTOCOL_LCP) || IsRequestPacket(p, PROTOCOL_IPCP) then 2 else 1
    case WorkForClient =>
      if (p.protocol == PROTOCOL_LCP || p.protocol == PROTOCOL_IPCP) && p.code == CONFIGURE_ACK then 1 else 4
  }

  function Reading(g: Gauge, frame: seq<byte>): nat {
    match Decode(frame)
    case Ok(p) => PacketReading(g, p)
    case Err(_) => if g == WorkForPeer then 1 else if g == WorkForClient then 4 else 0
  }

  function Total(g: Gauge, frames: seq<seq<byte>>): nat {
    if frames == [] then 0 else Reading(g, frames[0]) + Total(g, frames[1..])
  }

  function PacketTotal(g: Gauge, packets: seq<Packet>): nat {
    if packets == [] then 0 else PacketReading(g, packets[0]) + PacketTotal(g, packets[1..])
  }

  lemma {:induction false} TotalAppends(g: Gauge, a: seq<seq<byte>>, b: seq<seq<byte>>)
    ensures Total(g, a + b) == Total(g, a) + Total(g, b)
  {
    hide Reading;
    if a == [] {
      assert a + b == b;
    } else {
      TotalAppends(g, a[1..], b);
      assert (a + b)[1..] == a[1..] + b;
    }
  }

  lemma TotalGrowsBy(g: Gauge, frames: seq<seq<byte>>, f: seq<byte>)
    ensures Total(g, frames + [f]) == Total(g, frames) + Reading(g, f)
  {
    hide Reading;
    TotalAppends(g, frames, [f]);
    assert [f][1..] == [];
    assert Total(g, [f]) == Reading(g, f) + Total(g, [f][1..]);
  }

  lemma {:induction false} TotalOfEncoded(g: Gauge, packets: seq<Packet>)
    requires forall i :: 0 <= i < |packets| ==> Decode(Encode(packets[i])) == Ok(packets[i])
    ensures Total(g, Sessions.Frames(packets)) == PacketTotal(g, packets)
  {
    hide Decode, Encode, PacketReading;
    if packets != [] {
      TotalOfEncoded(g, packets[1..]);
      assert Sessions.Frames(packets)[1..] == Sessions.Frames(packets[1..]);
      assert Sessions.Frames(packets)[0] == Encode(packets[0]);
    }
  }

  lemma {:induction false} TotalWitness(g: Gauge, frames: seq<seq<byte>>, i: nat)
    requires i < |frames|
    ensures Total(g, frames) >= Reading(g, frames[i])
  {
    hide Reading;
    if i > 0 {
      TotalWitness(g, frames[1..], i - 1);
    }
  }

  // --- One turn of the session ---

  lemma {:induction false} FittingAddressesAreAdopted(options: seq<LinkOption>, target: Config)
    ensures Adopt(options, target).failure.None? <==> AddressesFit(options)
  {
    if options != [] {
      assert AddressesFit(options) <==>
             (IsAddressKind(options[0].kind) ==> |options[0].value| == 4) && AddressesFit(options[1..]) by {
        assert options == [options[0]] + options[1..];
      }
      FittingAddressesAreAdopted(options[1..], AdoptOne(options[0], target).config);
    }
  }

  lemma {:induction false} FittingAddressesAreRead(options: seq<LinkOption>, remoteIP: Option<Quad>)
    requires AddressesFit(options)
    ensures ReadPeerAddress(options, remoteIP).failure.None?
  {
    if options != [] {
      assert IsAddressKind(options[0].kind) ==> |options[0].value| == 4;
      FittingAddressesAreRead(options[1..],
                              if options[0].kind == IPCP_IP_ADDRESS then Some(options[0].value) else remoteIP);
    }
  }

  lemma {:induction false} UnmentionedAddressIsKept(options: seq<LinkOption>, requested: Config)
    ensures DropRejected(options, requested).addressRejected <==> Mentions(options, IPCP_IP_ADDRESS)
  {
    if options != [] {
      MentionsFirst(options, IPCP_IP_ADDRESS);
      UnmentionedAddressIsKept(options[1..],
                               if options[0].kind == IPCP_PRIMARY_DNS then requested.(primaryDNS := None)
                               else if options[0].kind == IPCP_SECOND_DNS then requested.(secondDNS := None)
                               else requested);
    }
  }

  /** What the session puts on the wire can be answered: its IPCP requests parse. */
  predicate Answerable(p: Packet) {
    IsRequestPacket(p, PROTOCOL_IPCP) ==> ParsesWithAddresses(p)
  }

  lemma IPCPRequestIsAnswerable(requested: Config)
    ensures var data := RenderOptions(IPCPOptions(requested));
            ParseOptions(data).Ok? && AddressesFit(ParseOptions(data).value)
  {
    hide ParseOptions, RenderOptions;
    IPCPOptionsParse(requested);
  }

  /** What handling one benign packet does to the tokens, the flags and the work to be done. */
  ghost predicate Balanced(s: State, p: Packet, s': State, sent: seq<Packet>) {
    && PacketTotal(LcpRequests, sent) + Bit(s'.lcpLocalDone) == PacketReading(LcpResponses, p) + Bit(s.lcpLocalDone)
    && PacketTotal(IpcpRequests, sent) + Bit(s'.ipcpLocalDone) + Bit(s.ipcpRequestSent)
       == PacketReading(IpcpResponses, p) + Bit(s.ipcpLocalDone) + Bit(s'.ipcpRequestSent)
    && PacketTotal(WorkForPeer, sent) + 4 * Bit(s.ipcpRequestSent)
       < PacketReading(WorkForClient, p) + 4 * Bit(s'.ipcpRequestSent)
    && (s.lcpRemoteDone ==> s'.lcpRemoteDone) && (s.ipcpRemoteDone ==> s'.ipcpRemoteDone)
    && (IsRequestPacket(p, PROTOCOL_IPCP) ==> s'.ipcpRemoteDone)
    && (forall i :: 0 <= i < |sent| ==> Answerable(sent[i]))
  }

  /** The state in which the session may be handed a packet: responses are due, and IPCP has been
      started if LCP is open. */
  predicate Ready(s: State, p: Packet) {
    && (IsResponsePacket(p, PROTOCOL_LCP) ==> !s.lcpLocalDone)
    && (IsResponsePacket(p, PROTOCOL_IPCP) ==> s.ipcpRequestSent && !s.ipcpLocalDone)
    && (s.lcpLocalDone && s.lcpRemoteDone ==> s.ipcpRequestSent)
    && !(s.ipcpLocalDone && s.ipcpRemoteDone)
  }

  lemma TotalOfOne(g: Gauge, sent: seq<Packet>)
    ensures |sent| == 0 ==> PacketTotal(g, sent) == 0
    ensures |sent| == 1 ==> PacketTotal(g, sent) == PacketReading(g, sent[0])
    ensures |sent| == 2 ==> PacketTotal(g, sent) == PacketReading(g, sent[0]) + PacketReading(g, sent[1])
  {
    if |sent| >= 1 {
      assert PacketTotal(g, sent) == PacketReading(g, sent[0]) + PacketTotal(g, sent[1..]);
      if |sent| == 2 {
        assert PacketTotal(g, sent[1..]) == PacketReading(g, sent[1]) + PacketTotal(g, sent[2..]);
      }
    }
  }

  lemma LcpStepIsBalanced(s: State, p: Packet)
    requires p.protocol == PROTOCOL_LCP && BenignPacket(p) && Ready(s, p)
    ensures var h := LcpStep(s, p, true);
            && h.failure.None? && |h.sent| <= 1 && Balanced(s, p, h.state, h.sent)
            && (IsRequestPacket(p, PROTOCOL_LCP) && Rejected(ParseOptions(p.data).value) == [] ==>
                  h.state.lcpRemoteDone)
            && h.state.ipcpRequestSent == s.ipcpRequestSent
  {
    hide ParseOptions, RenderOptions, UndisputedOptions, Rejected, Accepted;
    var h := LcpStep(s, p, true);
    TotalOfOne(LcpRequests, h.sent);
    TotalOfOne(IpcpRequests, h.sent);
    TotalOfOne(WorkForPeer, h.sent);
  }

  lemma IpcpRequestIsBalanced(s: State, p: Packet)
    requires p.protocol == PROTOCOL_IPCP && p.code == CONFIGURE_REQUEST && BenignPacket(p)
    ensures var h := AnswerIPCPRequest(s, p, true);
            && h.failure.None? && |h.sent| == 1 && Balanced(s, p, h.state, h.sent)
            && h.state.ipcpRequestSent == s.ipcpRequestSent
            && h.state.lcpLocalDone == s.lcpLocalDone && h.state.lcpRemoteDone == s.lcpRemoteDone
  {
    hide ParseOptions, ReadPeerAddress, AddressesFit;
    FittingAddressesAreRead(ParseOptions(p.data).value, s.negotiated.remoteIP);
    var h := AnswerIPCPRequest(s, p, true);
    TotalOfOne(LcpRequests, h.sent);
    TotalOfOne(IpcpRequests, h.sent);
    TotalOfOne(WorkForPeer, h.sent);
  }

  /** A Nak or a Reject makes the session ask again with the addresses it now wants. */
  lemma IpcpRetryIsBalanced(s: State, p: Packet, requested: Config)
    requires p.protocol == PROTOCOL_IPCP && (p.code == CONFIGURE_NAK || p.code == CONFIGURE_REJECT) && Ready(s, p)
    ensures var h := SendIPCPRequest(s.(requested := requested), true);
            && h.failure.None? && |h.sent| == 1 && Balanced(s, p, h.state, h.sent)
            && h.state.ipcpRequestSent == s.ipcpRequestSent
            && h.state.lcpLocalDone == s.lcpLocalDone && h.state.lcpRemoteDone == s.lcpRemoteDone
  {
    hide ParseOptions, RenderOptions, IPCPOptions, AddressesFit;
    IPCPRequestIsAnswerable(requested);
    var h := SendIPCPRequest(s.(requested := requested), true);
    TotalOfOne(LcpRequests, h.sent);
    TotalOfOne(IpcpRequests, h.sent);
    TotalOfOne(WorkForPeer, h.sent);
  }

  lemma IpcpStepIsBalanced(s: State, p: Packet)
    requires p.protocol == PROTOCOL_IPCP && BenignPacket(p) && Ready(s, p)
    ensures var h := IpcpStep(s, p, true);
            && h.failure.None? && |h.sent| <= 1 && Balanced(s, p, h.state, h.sent)
            && h.state.ipcpRequestSent == s.ipcpRequestSent
            && h.state.lcpLocalDone == s.lcpLocalDone && h.state.lcpRemoteDone == s.lcpRemoteDone
  {
    hide ParseOptions, Adopt, DropRejected, Mentions, AddressesFit, AnswerIPCPRequest, SendIPCPRequest;
    if p.code == CONFIGURE_REQUEST {
      IpcpRequestIsBalanced(s, p);
    } else if p.code == CONFIGURE_NAK {
      var options := ParseOptions(p.data).value;
      FittingAddressesAreAdopted(options, s.requested);
      IpcpRetryIsBalanced(s, p, Adopt(options, s.requested).config);
    } else if p.code == CONFIGURE_REJECT {
      var options := ParseOptions(p.data).value;
      UnmentionedAddressIsKept(options, s.requested);
      IpcpRetryIsBalanced(s, p, DropRejected(options, s.requested).requested);
    } else {
      if p.code == CONFIGURE_ACK {
        FittingAddressesAreAdopted(ParseOptions(p.data).value, s.negotiated);
      }
      var h := IpcpStep(s, p, true);
      TotalOfOne(LcpRequests, h.sent);
      TotalOfOne(IpcpRequests, h.sent);
      TotalOfOne(WorkForPeer, h.sent);
    }
  }

  /** Starting IPCP after the packet has been handled keeps the balance. */
  lemma AfterHandlingIsBalanced(s: State, p: Packet, h: Handled)
    requires h.failure.None? && |h.sent| <= 1 && Balanced(s, p, h.state, h.sent)
    requires h.state.ipcpRequestSent == s.ipcpRequestSent
    ensures var turn := AfterHandling(h, 2);
            && Balanced(s, p, turn.state, turn.sent)
            && turn.verdict == (if turn.state.ipcpLocalDone && turn.state.ipcpRemoteDone then Done else Continue)
            && (turn.state.lcpLocalDone && turn.state.lcpRemoteDone ==> turn.state.ipcpRequestSent)
            && (h.state.lcpRemoteDone ==> turn.state.lcpRemoteDone)
  {
    hide RenderOptions, ParseOptions, IPCPOptions, AddressesFit;
    var turn := AfterHandling(h, 2);
    IPCPRequestIsAnswerable(h.state.requested);
    TotalOfOne(LcpRequests, h.sent);
    TotalOfOne(IpcpRequests, h.sent);
    TotalOfOne(WorkForPeer, h.sent);
    TotalOfOne(LcpRequests, turn.sent);
    TotalOfOne(IpcpRequests, turn.sent);
    TotalOfOne(WorkForPeer, turn.sent);
    assert forall i :: 0 <= i < |h.sent| ==> turn.sent[i] == h.sent[i];
  }

  lemma ForeignTurnIsBalanced(s: State, p: Packet)
    requires p.protocol != PROTOCOL_LCP && p.protocol != PROTOCOL_IPCP
    ensures Balanced(s, p, s, [])
  {
    TotalOfOne(LcpRequests, []);
    TotalOfOne(IpcpRequests, []);
    TotalOfOne(WorkForPeer, []);
  }

  /** A turn on a benign frame never fails, and ends the negotiation exactly when IPCP is open both ways. */
  lemma TurnIsBalanced(s: State, frame: seq<byte>)
    requires Decode(frame).Ok? && BenignPacket(Decode(frame).value) && Ready(s, Decode(frame).value)
    ensures var turn := TakeTurn(s, frame, 2);
            var p := Decode(frame).value;
            && Balanced(s, p, turn.state, turn.sent)
            && turn.verdict == (if turn.state.ipcpLocalDone && turn.state.ipcpRemoteDone then Done else Continue)
            && (turn.state.lcpLocalDone && turn.state.lcpRemoteDone ==> turn.state.ipcpRequestSent)
            && (AcceptableLcpRequest(frame) ==> turn.state.lcpRemoteDone)
  {
    hide Decode, LcpStep, IpcpStep, AfterHandling, BenignPacket, ParseOptions, Rejected, Balanced;
    var p := Decode(frame).value;
    if p.protocol == PROTOCOL_LCP {
      LcpStepIsBalanced(s, p);
      AfterHandlingIsBalanced(s, p, LcpStep(s, p, true));
    } else if p.protocol == PROTOCOL_IPCP {
      IpcpStepIsBalanced(s, p);
      AfterHandlingIsBalanced(s, p, IpcpStep(s, p, true));
    } else {
      ForeignTurnIsBalanced(s, p);
    }
  }

  // --- The invariant of the closed system ---

  predicate AnswerableFrame(frame: seq<byte>) {
    Decode(frame).Ok? && Answerable(Decode(frame).value)
  }

  /** Exactly one of: our request is on its way, its answer is on its way back, or it is settled. */
  ghost predicate Tokens(a: System) {
    && Total(LcpRequests, a.toPeer) + Total(LcpResponses, a.toClient) + Bit(a.session.lcpLocalDone) == 1
    && Total(IpcpRequests, a.toPeer) + Total(IpcpResponses, a.toClient) + Bit(a.session.ipcpLocalDone)
       == Bit(a.session.ipcpRequestSent)
  }

  /** The peer's own requests are settled, still due, or on their way. */
  ghost predicate PeerRequests(a: System) {
    && (a.session.lcpRemoteDone || a.peer.lcpRequestDue || exists f :: f in a.toClient && AcceptableLcpRequest(f))
    && (a.session.ipcpRemoteDone || a.peer.ipcpRequestDue || exists f :: f in a.toClient && IsRequest(f, PROTOCOL_IPCP))
  }

  ghost predicate Queues(a: System) {
    && (forall f :: f in a.toClient ==> Benign(f))
    && (forall f :: f in a.toPeer ==> AnswerableFrame(f))
  }

  ghost predicate Inv(a: System) {
    && !a.status.Failed?
    && (a.status.Succeeded? <==> a.session.ipcpLocalDone && a.session.ipcpRemoteDone)
    && (a.session.lcpLocalDone && a.session.lcpRemoteDone ==> a.session.ipcpRequestSent)
    && Tokens(a) && PeerRequests(a) && Queues(a)
  }

  /** The decreasing measure: budget, requests still owed by either side, and work in the two queues. */
  function Measure(a: System): nat {
    8 * a.peer.budget + 8 * Bit(a.peer.lcpRequestDue) + 8 * Bit(a.peer.ipcpRequestDue)
    + 4 * Bit(!a.session.ipcpRequestSent)
    + Total(WorkForPeer, a.toPeer) + Total(WorkForClient, a.toClient)
  }

  lemma HeadOfTotal(frames: seq<seq<byte>>)
    requires frames != []
    ensures forall g: Gauge :: Total(g, frames) == Reading(g, frames[0]) + Total(g, frames[1..])
  {
  }

  lemma StartHolds(magic: Quad, budget: nat)
    ensures Inv(Start(magic, budget))
  {
    hide Decode, Encode, RenderOptions;
    var a := Start(magic, budget);
    var opening := SendLCPRequest(NewState(magic), true);
    var q := opening.sent[0];
    OpeningFits(magic);
    assert a.toPeer == [Encode(q)];
    assert a.toPeer[1..] == [] && [q][1..] == [];
    HeadOfTotal(a.toPeer);
  }

  lemma OpeningFits(magic: Quad)
    ensures var sent := SendLCPRequest(NewState(magic), true).sent;
            |sent| == 1 && IsRequestPacket(sent[0], PROTOCOL_LCP) && Decode(Encode(sent[0])) == Ok(sent[0])
  {
    var options := InitialLCPOptions(magic);
    UndisputedOptionsParse(magic, []);
    assert UndisputedOptions(magic, []) == options;
    RoundTrip(SendLCPRequest(NewState(magic), true).sent[0]);
  }

  lemma SentFramesTotal(s: State, frame: seq<byte>, g: Gauge)
    ensures var sent := TakeTurn(s, frame, 2).sent;
            && Total(g, Sessions.Frames(sent)) == PacketTotal(g, sent)
            && (forall i :: 0 <= i < |sent| ==> Sessions.Frames(sent)[i] == Encode(sent[i])
                                                && Decode(Encode(sent[i])) == Ok(sent[i]))
  {
    hide TakeTurn, Decode, Encode, PacketReading;
    var sent := TakeTurn(s, frame, 2).sent;
    forall i | 0 <= i < |sent|
      ensures Decode(Encode(sent[i])) == Ok(sent[i])
    {
      EverySentPacketFits(s, frame, 2, i);
    }
    TotalOfEncoded(g, sent);
  }

  lemma FrameIsReady(a: System)
    requires Inv(a) && a.status.Running? && a.toClient != [] && Decode(a.toClient[0]).Ok?
    ensures Ready(a.session, Decode(a.toClient[0]).value)
  {
    hide Decode;
    TotalWitness(LcpResponses, a.toClient, 0);
    TotalWitness(IpcpResponses, a.toClient, 0);
  }

  lemma ClientReadsKeeps(a: System)
    requires Inv(a) && Enabled(a, ClientReads)
    ensures Inv(After(a, ClientReads))
    ensures Measure(After(a, ClientReads)) < Measure(a)
  {
    var frame, rest := a.toClient[0], a.toClient[1..];
    assert frame in a.toClient && Benign(frame);
    assert Decode(frame).Ok? ==> BenignPacket(Decode(frame).value);
    hide Decode, Encode, TakeTurn, Benign, BenignPacket, AnswerableFrame, AcceptableLcpRequest, Sessions.Frames;
    assert frame in a.toClient && Benign(frame);
    assert a.toClient == [frame] + rest;
    if Decode(frame).Ok? {
      FrameIsReady(a);
      DecodedTurnKeeps(a, frame, rest);
    } else {
      UndecodedTurnKeeps(a, frame, rest);
    }
  }

  lemma UndecodedTurnKeeps(a: System, frame: seq<byte>, rest: seq<seq<byte>>)
    requires Inv(a) && a.status.Running? && a.toClient == [frame] + rest && Decode(frame).Err?
    ensures Inv(After(a, ClientReads))
    ensures Measure(After(a, ClientReads)) < Measure(a)
  {
    hide Decode, Benign, AnswerableFrame, AfterHandling, Sessions.Frames;
    var turn := TakeTurn(a.session, frame, 2);
    assert turn == Turn(a.session, [], Continue);
    FramesSize([]);
    assert a.toPeer + Sessions.Frames([]) == a.toPeer;
    assert a.toClient[1..] == rest;
    forall g: Gauge
      ensures Total(g, a.toClient) == Reading(g, frame) + Total(g, rest)
    {
      HeadOfTotal(a.toClient);
    }
    RemainingRequests(a, frame, rest);
  }

  lemma RemainingRequests(a: System, frame: seq<byte>, rest: seq<seq<byte>>)
    requires PeerRequests(a) && a.toClient == [frame] + rest
    ensures a.session.lcpRemoteDone || a.peer.lcpRequestDue || AcceptableLcpRequest(frame)
            || exists f :: f in rest && AcceptableLcpRequest(f)
    ensures a.session.ipcpRemoteDone || a.peer.ipcpRequestDue || IsRequest(frame, PROTOCOL_IPCP)
            || exists f :: f in rest && IsRequest(f, PROTOCOL_IPCP)
  {
    hide AcceptableLcpRequest, IsRequest;
    assert forall f :: f in a.toClient ==> f == frame || f in rest;
  }

  lemma DecodedTurnKeeps(a: System, frame: seq<byte>, rest: seq<seq<byte>>)
    requires Inv(a) && a.status.Running? && a.toClient == [frame] + rest
    requires Decode(frame).Ok? && BenignPacket(Decode(frame).value) && Ready(a.session, Decode(frame).value)
    ensures Inv(After(a, ClientReads))
    ensures Measure(After(a, ClientReads)) < Measure(a)
  {
    hide Decode, Encode, TakeTurn, Benign, BenignPacket, AcceptableLcpRequest, Sessions.Frames;
    hide ParsesWithAddresses, PacketReading;
    var p := Decode(frame).value;
    var turn := TakeTurn(a.session, frame, 2);
    var b := After(a, ClientReads);
    var out := Sessions.Frames(turn.sent);
    assert a.toClient[1..] == rest;
    TurnIsBalanced(a.session, frame);
    forall g: Gauge
      ensures Total(g, a.toClient) == PacketReading(g, p) + Total(g, rest)
      ensures Total(g, b.toPeer) == Total(g, a.toPeer) + PacketTotal(g, turn.sent)
    {
      HeadOfTotal(a.toClient);
      TotalAppends(g, a.toPeer, out);
      SentFramesTotal(a.session, frame, g);
    }
    RemainingRequests(a, frame, rest);
    SentFramesTotal(a.session, frame, WorkForPeer);
    FramesSize(turn.sent);
    forall f | f in b.toPeer
      ensures AnswerableFrame(f)
    {
      if f !in a.toPeer {
        var i :| 0 <= i < |out| && out[i] == f;
        assert f == Encode(turn.sent[i]) && Answerable(turn.sent[i]);
      }
    }
  }

  lemma FramesSize(packets: seq<Packet>)
    ensures |Sessions.Frames(packets)| == |packets|
  {
  }

  // --- The moves of the peer ---

  /** The peer puts one more benign frame on its way. */
  lemma FrameArrives(a: System, b: System, f: seq<byte>)
    requires Queues(a) && Benign(f)
    requires b.toClient == a.toClient + [f] && (b.toPeer == a.toPeer || (a.toPeer != [] && b.toPeer == a.toPeer[1..]))
    requires b.session == a.session
    ensures Queues(b)
    ensures forall g: Gauge :: Total(g, b.toClient) == Total(g, a.toClient) + Reading(g, f)
    ensures forall x :: x in a.toClient || x == f ==> x in b.toClient
  {
    hide Reading, Benign, AnswerableFrame;
    forall g: Gauge
      ensures Total(g, b.toClient) == Total(g, a.toClient) + Reading(g, f)
    {
      TotalGrowsBy(g, a.toClient, f);
    }
    assert f in b.toClient;
  }

  lemma AcknowledgementIsBenign(a: System, r: seq<byte>)
    requires Queues(a) && Enabled(a, PeerAcknowledges(r))
    ensures Benign(r)
    ensures var p := Decode(a.toPeer[0]).value;
            && Reading(LcpResponses, r) == Reading(LcpRequests, a.toPeer[0])
            && Reading(IpcpResponses, r) == Reading(IpcpRequests, a.toPeer[0])
            && Reading(WorkForClient, r) == 1 && Reading(WorkForPeer, a.toPeer[0]) == 2
  {
    hide Decode, ParseOptions, AddressesFit;
    assert a.toPeer[0] in a.toPeer && AnswerableFrame(a.toPeer[0]);
  }

  lemma RefusalIsBenign(a: System, r: seq<byte>)
    requires Queues(a) && Enabled(a, PeerRefuses(r))
    ensures Benign(r)
    ensures && Reading(LcpResponses, r) == Reading(LcpRequests, a.toPeer[0])
            && Reading(IpcpResponses, r) == Reading(IpcpRequests, a.toPeer[0])
            && Reading(WorkForClient, r) == 4 && Reading(WorkForPeer, a.toPeer[0]) == 2
  {
    hide Decode, ParseOptions, AddressesFit, BenignPacket;
  }

  lemma ConsumedCarriesNoToken(a: System)
    requires Enabled(a, PeerConsumes)
    ensures Reading(LcpRequests, a.toPeer[0]) == 0 && Reading(IpcpRequests, a.toPeer[0]) == 0
    ensures Reading(WorkForPeer, a.toPeer[0]) == 1
  {
    hide Decode;
  }

  lemma UnaskedFrameCarriesNoToken(f: seq<byte>)
    requires AnswersNothing(f)
    ensures Reading(LcpResponses, f) == 0 && Reading(IpcpResponses, f) == 0
    ensures Reading(WorkForClient, f) <= 4
  {
    hide Decode;
  }

  lemma PeerRequestIsBenign(f: seq<byte>)
    requires AcceptableLcpRequest(f) || (IsRequest(f, PROTOCOL_IPCP) && Benign(f))
    ensures Benign(f) && AnswersNothing(f)
  {
    hide Decode, ParseOptions;
  }

  lemma PeerMoveKeeps(a: System, m: Move)
    requires Inv(a) && Enabled(a, m) && !m.ClientReads?
    ensures Inv(After(a, m))
    ensures Measure(After(a, m)) < Measure(a)
  {
    hide Reading, Benign, AnswerableFrame, AcceptableLcpRequest, IsRequest, Total;
    hide Acknowledges, Refuses, AnswersNothing;
    var b := After(a, m);
    match m {
      case PeerAcknowledges(r) =>
        AcknowledgementIsBenign(a, r);
        FrameArrives(a, b, r);
        HeadOfTotal(a.toPeer);
      case PeerRefuses(r) =>
        RefusalIsBenign(a, r);
        FrameArrives(a, b, r);
        HeadOfTotal(a.toPeer);
      case PeerConsumes =>
        ConsumedCarriesNoToken(a);
        HeadOfTotal(a.toPeer);
      case PeerRequestsLcp(f) =>
        PeerRequestIsBenign(f);
        UnaskedFrameCarriesNoToken(f);
        FrameArrives(a, b, f);
      case PeerRequestsIpcp(f) =>
        PeerRequestIsBenign(f);
        UnaskedFrameCarriesNoToken(f);
        FrameArrives(a, b, f);
      case PeerSpends(f) =>
        UnaskedFrameCarriesNoToken(f);
        FrameArrives(a, b, f);
    }
  }

  lemma MoveKeeps(a: System, m: Move)
    requires Inv(a) && Enabled(a, m)
    ensures Inv(After(a, m)) && Measure(After(a, m)) < Measure(a)
  {
    hide After, Inv, Measure;
    if m.ClientReads? {
      ClientReadsKeeps(a);
    } else {
      PeerMoveKeeps(a, m);
    }
  }

  // --- Whole runs ---

  lemma {:induction false} RunKeeps(a: System, moves: seq<Move>)
    requires Inv(a) && ValidRun(a, moves)
    ensures Inv(Run(a, moves))
    ensures |moves| + Measure(Run(a, moves)) <= Measure(a)
    decreases |moves|
  {
    hide Inv, Measure, After, Enabled;
    if moves != [] {
      MoveKeeps(a, moves[0]);
      RunKeeps(After(a, moves[0]), moves[1..]);
    }
  }

  /** An acknowledgement of any answerable request exists. */
  lemma SomeAcknowledgement(a: System) returns (r: seq<byte>)
    requires Inv(a) && HeadIsRequest(a.toPeer)
    ensures Enabled(a, PeerAcknowledges(r))
  {
    hide ParseOptions;
    var p := Decode(a.toPeer[0]).value;
    var ack := p.(code := CONFIGURE_ACK);
    r := Encode(ack);
    DecodedPrefix(a.toPeer[0], p, StripAddressAndControl(a.toPeer[0]));
    RoundTrip(ack);
  }

  lemma SomeLcpRequest() returns (f: seq<byte>)
    ensures AcceptableLcpRequest(f)
  {
    var p := Packet(PROTOCOL_LCP, CONFIGURE_REQUEST, 1, []);
    RoundTrip(p);
    f := Encode(p);
    assert ParseOptions(p.data) == Ok([]);
  }

  lemma SomeIpcpRequest() returns (f: seq<byte>)
    ensures IsRequest(f, PROTOCOL_IPCP) && Benign(f)
  {
    var p := Packet(PROTOCOL_IPCP, CONFIGURE_REQUEST, 1, []);
    RoundTrip(p);
    f := Encode(p);
    assert ParseOptions(p.data) == Ok([]);
  }

  /** What the peer may do but need not: it can keep its budget. */
  predicate Optional(m: Move) {
    m.PeerRefuses? || m.PeerSpends?
  }

  /** No deadlock: as long as the negotiation runs, some move is enabled that nobody is free to leave out. */
  lemma SomethingIsEnabled(a: System) returns (m: Move)
    requires Inv(a) && a.status.Running?
    ensures Enabled(a, m) && !Optional(m)
  {
    if a.toClient != [] {
      m := ClientReads;
    } else if a.toPeer != [] {
      if HeadIsRequest(a.toPeer) {
        var r := SomeAcknowledgement(a);
        m := PeerAcknowledges(r);
      } else {
        m := PeerConsumes;
      }
    } else if a.peer.lcpRequestDue {
      var f := SomeLcpRequest();
      m := PeerRequestsLcp(f);
    } else if a.peer.ipcpRequestDue {
      var f := SomeIpcpRequest();
      m := PeerRequestsIpcp(f);
    } else {
      assert false;
    }
  }

  /** Nothing is left to do but what the peer is free to leave out. */
  ghost predicate Stuck(a: System) {
    forall m: Move :: !Optional(m) ==> !Enabled(a, m)
  }

  /** For every budget and every interleaving: a run has no more moves than the measure of its start,
      it never fails, and when nothing more has to happen Negotiate has succeeded. So every maximal run
      is finite and ends in success, whether or not the peer spends its budget. */
  lemma {:induction false} EveryMaximalRunSucceeds(magic: Quad, budget: nat, moves: seq<Move>)
    requires ValidRun(Start(magic, budget), moves)
    ensures |moves| <= 8 * budget + 22
    ensures var end := Run(Start(magic, budget), moves);
            !end.status.Failed? && (Stuck(end) ==> end.status.Succeeded?)
  {
    hide Enabled, After, Measure;
    var a := Start(magic, budget);
    StartHolds(magic, budget);
    StartMeasure(magic, budget);
    RunKeeps(a, moves);
    var end := Run(a, moves);
    if Stuck(end) && end.status.Running? {
      var m := SomethingIsEnabled(end);
    }
  }

  lemma StartMeasure(magic: Quad, budget: nat)
    ensures Measure(Start(magic, budget)) == 8 * budget + 22
  {
    hide Decode, Encode, RenderOptions;
    var a := Start(magic, budget);
    var q := SendLCPRequest(NewState(magic), true).sent[0];
    OpeningFits(magic);
    assert a.toPeer == [Encode(q)];
    assert a.toPeer[1..] == [];
    HeadOfTotal(a.toPeer);
  }

  // --- The closed system runs the loop of Negotiate ---

  /** The turns that consuming the frames takes, all but the last of which continue. */
  function TurnsOver(s: State, frames: seq<seq<byte>>): Turn {
    if frames == [] then Turn(s, [], Continue)
    else
      var before := TurnsOver(s, frames[..|frames| - 1]);
      if before.verdict.Continue? then TakeTurn(before.state, frames[|frames| - 1], 2) else before
  }

  ghost predicate Follows(magic: Quad, a: System) {
    var opening := SendLCPRequest(NewState(magic), true);
    var turns := TurnsOver(opening.state, a.consumed);
    && turns.state == a.session
    && (a.status.Running? <==> turns.verdict.Continue?)
    && (a.status.Succeeded? <==> turns.verdict.Done?)
  }

  lemma {:induction false} RunFollows(magic: Quad, a: System, moves: seq<Move>)
    requires Follows(magic, a) && ValidRun(a, moves)
    ensures Follows(magic, Run(a, moves))
    decreases |moves|
  {
    hide TakeTurn, Acknowledges, Refuses, Benign, AcceptableLcpRequest, Sessions.Frames;
    if moves != [] {
      var b := After(a, moves[0]);
      if moves[0].ClientReads? {
        assert b.consumed[..|a.consumed|] == a.consumed;
      }
      RunFollows(magic, b, moves[1..]);
    }
  }

  /** More room for writing does not change a turn that needs two writes at most. */
  lemma CapacityIsEnough(s: State, frame: seq<byte>, capacity: nat)
    requires capacity >= 2
    ensures TakeTurn(s, frame, capacity) == TakeTurn(s, frame, 2)
  {
    hide Decode, LcpStep, IpcpStep;
    if Decode(frame).Ok? {
      var p := Decode(frame).value;
      assert |LcpStep(s, p, true).sent| <= 1 && |IpcpStep(s, p, true).sent| <= 1;
    }
  }

  lemma {:induction false} LoopTakesTurns(
      s: State, frames: seq<seq<byte>>, rest: seq<seq<byte>>, w: Wire, patience: nat)
    requires w.incoming == frames + rest && w.capacity >= 2 * |frames| && patience >= |frames|
    requires TurnsOver(s, frames).verdict.Continue?
    ensures exists w': Wire ::
              && w'.incoming == rest && w'.capacity >= w.capacity - 2 * |frames|
              && Loop(s, w, patience) == Loop(TurnsOver(s, frames).state, w', patience - |frames|)
    decreases |frames|
  {
    hide TakeTurn, Sessions.Frames;
    if frames == [] {
      assert w.incoming == rest;
    } else {
      var early, last := frames[..|frames| - 1], frames[|frames| - 1];
      assert frames + rest == early + ([last] + rest);
      LoopTakesTurns(s, early, [last] + rest, w, patience);
      var mid := TurnsOver(s, early).state;
      var w1: Wire :| && w1.incoming == [last] + rest && w1.capacity >= w.capacity - 2 * |early|
                      && Loop(s, w, patience) == Loop(mid, w1, patience - |early|);
      CapacityIsEnough(mid, last, w1.capacity);
      var turn := TakeTurn(mid, last, w1.capacity);
      assert |TakeTurn(mid, last, 2).sent| <= 2;
      assert w1.incoming[0] == last && w1.incoming[1..] == rest;
      var w2 := AfterWriting(w1.(incoming := rest), turn.sent);
      assert Loop(mid, w1, patience - |early|) == Loop(turn.state, w2, patience - |frames|);
    }
  }

  /** What the closed system calls success is a successful return of Negotiate: run on the frames the
      session consumed, over a link with room for its writes, it returns the negotiated addresses. */
  lemma {:induction false} SuccessIsNegotiated(magic: Quad, budget: nat, moves: seq<Move>, w: Wire, patience: nat)
    requires ValidRun(Start(magic, budget), moves)
    requires var end := Run(Start(magic, budget), moves);
             && end.status.Succeeded? && w.incoming == end.consumed
             && w.capacity >= 2 * |end.consumed| + 1 && patience >= |end.consumed|
    ensures Negotiation(NewState(magic), w, patience).result
            == Ok(Run(Start(magic, budget), moves).session.negotiated)
  {
    hide TakeTurn, Sessions.Frames, Enabled, After;
    var a := Start(magic, budget);
    var opening := SendLCPRequest(NewState(magic), true);
    RunFollows(magic, a, moves);
    var end := Run(a, moves);
    var frames := end.consumed;
    var early, last := frames[..|frames| - 1], frames[|frames| - 1];
    var before := TurnsOver(opening.state, early);
    DoneComesLast(opening.state, frames, magic, a, moves);
    assert frames == early + [last];
    var w0 := AfterWriting(w, opening.sent);
    LoopTakesTurns(opening.state, early, [last], w0, patience);
    var w1: Wire :| && w1.incoming == [last] && w1.capacity >= w0.capacity - 2 * |early|
                    && Loop(opening.state, w0, patience) == Loop(before.state, w1, patience - |early|);
    CapacityIsEnough(before.state, last, w1.capacity);
    assert w1.incoming[0] == last;
    assert Loop(before.state, w1, patience - |early|).result == Ok(end.session.negotiated);
  }

  /** The session stops reading once it is done, so only the last turn can have ended the loop. */
  ghost predicate StopsWhenDone(s: State, a: System) {
    a.consumed != [] ==> TurnsOver(s, a.consumed[..|a.consumed| - 1]).verdict.Continue?
  }

  lemma {:induction false} RunStopsWhenDone(magic: Quad, a: System, moves: seq<Move>)
    requires Follows(magic, a) && ValidRun(a, moves)
    requires StopsWhenDone(SendLCPRequest(NewState(magic), true).state, a)
    ensures StopsWhenDone(SendLCPRequest(NewState(magic), true).state, Run(a, moves))
    decreases |moves|
  {
    hide TakeTurn, Acknowledges, Refuses, Benign, AcceptableLcpRequest, Sessions.Frames;
    if moves != [] {
      var b := After(a, moves[0]);
      if moves[0].ClientReads? {
        assert b.consumed[..|a.consumed|] == a.consumed;
      }
      RunFollows(magic, a, moves[..1]) by {
        assert moves[..1][1..] == [];
        assert ValidRun(b, moves[..1][1..]);
      }
      assert Run(a, moves[..1]) == b by {
        assert moves[..1][1..] == [];
      }
      RunStopsWhenDone(magic, b, moves[1..]);
    }
  }

  lemma DoneComesLast(s: State, frames: seq<seq<byte>>, magic: Quad, a: System, moves: seq<Move>)
    requires Follows(magic, a) && ValidRun(a, moves) && a.consumed == []
    requires s == SendLCPRequest(NewState(magic), true).state
    requires frames == Run(a, moves).consumed && Run(a, moves).status.Succeeded?
    ensures frames != [] && TurnsOver(s, frames[..|frames| - 1]).verdict.Continue?
  {
    hide TakeTurn, Enabled, After;
    RunFollows(magic, a, moves);
    RunStopsWhenDone(magic, a, moves);
  }
}
