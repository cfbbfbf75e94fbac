/** The client half of PPP negotiation, one packet at a time and as a whole:
    internal/ppp/session.go and internal/ppp/ipcp.go. */
module Sessions {
  import opened Bytes
  import opened LinkOptions
  import opened Packets

  datatype Config = Config(localIP: Option<Quad>, remoteIP: Option<Quad>,
                           primaryDNS: Option<Quad>, secondDNS: Option<Quad>)

  const NO_CONFIG := Config(None, None, None, None)

  datatype SessionError =
    | UndecodableOptions(options: OptionError)
    | BadAddress(address: AddressError)
    | AddressRejected
    | GatewayTerminated
    | WriteFailed
    | ReadFailed
    | Cancelled

  /** The fields of a Session. */
  datatype State = State(
    magic: Quad, identifier: byte,
    lcpLocalDone: bool, lcpRemoteDone: bool,
    ipcpLocalDone: bool, ipcpRemoteDone: bool, ipcpRequestSent: bool,
    requested: Config, negotiated: Config)

  function NewState(magic: Quad): State {
    State(magic, 0, false, false, false, false, false, NO_CONFIG, NO_CONFIG)
  }

  /** What handling one packet does: the new state, the packets the link accepted, the error returned. */
  datatype Handled = Handled(state: State, sent: seq<Packet>, failure: Option<SessionError>)

  /** `identifier++` on a byte. */
  function NextID(s: State): byte {
    TruncateToByte(s.identifier + 1)
  }

  /** Writing one packet: it is on the wire, or the write failed. */
  function Write(s: State, p: Packet, writable: bool): (h: Handled)
    ensures |h.sent| <= if writable then 1 else 0
  {
    if writable then Handled(s, [p], None) else Handled(s, [], Some(WriteFailed))
  }

  function SendRequest(s: State, protocol: uint16, options: seq<LinkOption>, writable: bool): (h: Handled)
    ensures |h.sent| <= if writable then 1 else 0
  {
    var s' := s.(identifier := NextID(s));
    Write(s', Packet(protocol, CONFIGURE_REQUEST, s'.identifier, RenderOptions(options)), writable)
  }

  // --- LCP ---

  function InitialLCPOptions(magic: Quad): seq<LinkOption> {
    [MruOption(DEFAULT_MRU), MagicNumberOption(magic)]
  }

  function SendLCPRequest(s: State, writable: bool): Handled {
    SendRequest(s, PROTOCOL_LCP, InitialLCPOptions(s.magic), writable)
  }

  predicate Mentions(options: seq<LinkOption>, kind: byte) {
    exists i | 0 <= i < |options| :: options[i].kind == kind
  }

  function UndisputedOptions(magic: Quad, disputed: seq<LinkOption>): seq<LinkOption> {
    (if Mentions(disputed, LCP_MRU) then [] else [MruOption(DEFAULT_MRU)])
    + (if Mentions(disputed, LCP_MAGIC_NUMBER) then [] else [MagicNumberOption(magic)])
  }

  function AnswerLCPRequest(s: State, p: Packet, writable: bool): (h: Handled)
    ensures |h.sent| <= if writable then 1 else 0
  {
    match ParseOptions(p.data)
    case Err(e) => Handled(s, [], Some(UndecodableOptions(e)))
    case Ok(options) =>
      if |Rejected(options)| > 0 then
        Write(s, Packet(PROTOCOL_LCP, CONFIGURE_REJECT, p.identifier, RenderOptions(Rejected(options))), writable)
      else
        var reply := Packet(PROTOCOL_LCP, CONFIGURE_ACK, p.identifier, RenderOptions(Accepted(options)));
        var written := Write(s, reply, writable);
        if written.failure.Some? then written else written.(state := s.(lcpRemoteDone := true))
  }

  function ResendLCPWithout(s: State, p: Packet, writable: bool): (h: Handled)
    ensures |h.sent| <= if writable then 1 else 0
  {
    match ParseOptions(p.data)
    case Err(e) => Handled(s, [], Some(UndecodableOptions(e)))
    case Ok(disputed) => SendRequest(s, PROTOCOL_LCP, UndisputedOptions(s.magic, disputed), writable)
  }

  function LcpStep(s: State, p: Packet, writable: bool): (h: Handled)
    ensures |h.sent| <= if writable then 1 else 0
  {
    if p.code == CONFIGURE_REQUEST then AnswerLCPRequest(s, p, writable)
    else if p.code == CONFIGURE_ACK then Handled(s.(lcpLocalDone := true), [], None)
    else if p.code == CONFIGURE_NAK || p.code == CONFIGURE_REJECT then ResendLCPWithout(s, p, writable)
    else if p.code == ECHO_REQUEST then
      Write(s, Packet(PROTOCOL_LCP, ECHO_REPLY, p.identifier, s.magic), writable)
    else if p.code == TERMINATE_REQUEST then
      // The answer is written on a best-effort basis: its failure is ignored.
      var ack := Packet(PROTOCOL_LCP, TERMINATE_ACK, p.identifier, []);
      Write(s, ack, writable).(failure := Some(GatewayTerminated))
    else Handled(s, [], None)
  }

  // --- IPCP ---

  function IPCPOptions(requested: Config): seq<LinkOption> {
    [IpOption(IPCP_IP_ADDRESS, requested.localIP),
     IpOption(IPCP_PRIMARY_DNS, requested.primaryDNS),
     IpOption(IPCP_SECOND_DNS, requested.secondDNS)]
  }

  function SendIPCPRequest(s: State, writable: bool): (h: Handled)
    ensures |h.sent| <= if writable then 1 else 0
  {
    SendRequest(s.(ipcpRequestSent := true), PROTOCOL_IPCP, IPCPOptions(s.requested), writable)
  }

  datatype Adopted = Adopted(config: Config, failure: Option<AddressError>)

  function AdoptOne(option: LinkOption, target: Config): Adopted {
    if option.kind != IPCP_IP_ADDRESS && option.kind != IPCP_PRIMARY_DNS && option.kind != IPCP_SECOND_DNS then
      Adopted(target, None)
    else
      match OptionIP(option)
      case Err(e) => Adopted(target, Some(e))
      case Ok(ip) =>
        Adopted(if option.kind == IPCP_IP_ADDRESS then target.(localIP := Some(ip))
                else if option.kind == IPCP_PRIMARY_DNS then target.(primaryDNS := Some(ip))
                else target.(secondDNS := Some(ip)), None)
  }

  /** What adoptIPCPOptions leaves in its target, including what it stored before an error. */
  function Adopt(options: seq<LinkOption>, target: Config): Adopted {
    if options == [] then Adopted(target, None)
    else
      var first := AdoptOne(options[0], target);
      if first.failure.Some? then first else Adopt(options[1..], first.config)
  }

  datatype Dropped = Dropped(requested: Config, addressRejected: bool)

  /** The Configure-Reject loop: DNS options are cleared until an address option stops it. */
  function DropRejected(options: seq<LinkOption>, requested: Config): Dropped {
    if options == [] then Dropped(requested, false)
    else if options[0].kind == IPCP_IP_ADDRESS then Dropped(requested, true)
    else
      DropRejected(options[1..],
                   if options[0].kind == IPCP_PRIMARY_DNS then requested.(primaryDNS := None)
                   else if options[0].kind == IPCP_SECOND_DNS then requested.(secondDNS := None)
                   else requested)
  }

  datatype PeerAddress = PeerAddress(remoteIP: Option<Quad>, failure: Option<AddressError>)

  /** The last address option of the peer's own request. */
  function ReadPeerAddress(options: seq<LinkOption>, remoteIP: Option<Quad>): PeerAddress {
    if options == [] then PeerAddress(remoteIP, None)
    else if options[0].kind != IPCP_IP_ADDRESS then ReadPeerAddress(options[1..], remoteIP)
    else
      match OptionIP(options[0])
      case Err(e) => PeerAddress(remoteIP, Some(e))
      case Ok(ip) => ReadPeerAddress(options[1..], Some(ip))
  }

  function AnswerIPCPRequest(s: State, p: Packet, writable: bool): (h: Handled)
    ensures |h.sent| <= if writable then 1 else 0
  {
    match ParseOptions(p.data)
    case Err(e) => Handled(s, [], Some(UndecodableOptions(e)))
    case Ok(options) =>
      var peer := ReadPeerAddress(options, s.negotiated.remoteIP);
      var s' := s.(negotiated := s.negotiated.(remoteIP := peer.remoteIP));
      match peer.failure
      case Some(e) => Handled(s', [], Some(BadAddress(e)))
      case None =>
        var written := Write(s', Packet(PROTOCOL_IPCP, CONFIGURE_ACK, p.identifier, p.data), writable);
        if written.failure.Some? then written else written.(state := s'.(ipcpRemoteDone := true))
  }

  function IpcpStep(s: State, p: Packet, writable: bool): (h: Handled)
    ensures |h.sent| <= if writable then 1 else 0
  {
    if p.code == CONFIGURE_REQUEST then AnswerIPCPRequest(s, p, writable)
    else if p.code == CONFIGURE_ACK then
      match ParseOptions(p.data) {
        case Err(e) => Handled(s, [], Some(UndecodableOptions(e)))
        case Ok(options) =>
          var adopted := Adopt(options, s.negotiated);
          var s' := s.(negotiated := adopted.config);
          if adopted.failure.Some? then Handled(s', [], Some(BadAddress(adopted.failure.value)))
          else Handled(s'.(ipcpLocalDone := true), [], None)
      }
    else if p.code == CONFIGURE_NAK then
      match ParseOptions(p.data) {
        case Err(e) => Handled(s, [], Some(UndecodableOptions(e)))
        case Ok(options) =>
          var adopted := Adopt(options, s.requested);
          var s' := s.(requested := adopted.config);
          if adopted.failure.Some? then Handled(s', [], Some(BadAddress(adopted.failure.value)))
          else SendIPCPRequest(s', writable)
      }
    else if p.code == CONFIGURE_REJECT then
      match ParseOptions(p.data) {
        case Err(e) => Handled(s, [], Some(UndecodableOptions(e)))
        case Ok(options) =>
          var dropped := DropRejected(options, s.requested);
          var s' := s.(requested := dropped.requested);
          if dropped.addressRejected then Handled(s', [], Some(AddressRejected))
          else SendIPCPRequest(s', writable)
      }
    else if p.code == TERMINATE_REQUEST then
      Write(s, Packet(PROTOCOL_IPCP, TERMINATE_ACK, p.identifier, []), writable)
    else Handled(s, [], None)
  }

  // --- One turn of the negotiation loop, and the whole loop ---

  datatype Verdict = Continue | Done | Fail(error: SessionError)

  datatype Turn = Turn(state: State, sent: seq<Packet>, verdict: Verdict)

  /** What follows the handling of an LCP or IPCP packet: IPCP starts once LCP is open, and the loop
      ends once both directions of IPCP are. */
  function AfterHandling(h: Handled, capacity: nat): Turn
    requires |h.sent| <= capacity
  {
    if h.failure.Some? then
      Turn(h.state, h.sent, Fail(h.failure.value))
    else
      var started := if h.state.lcpLocalDone && h.state.lcpRemoteDone && !h.state.ipcpRequestSent
                     then SendIPCPRequest(h.state, |h.sent| < capacity)
                     else Handled(h.state, [], None);
      var sent := h.sent + started.sent;
      if started.failure.Some? then Turn(started.state, sent, Fail(started.failure.value))
      else if started.state.ipcpLocalDone && started.state.ipcpRemoteDone then Turn(started.state, sent, Done)
      else Turn(started.state, sent, Continue)
  }

  /** One frame read by Negotiate, on a link that accepts `capacity` more writes. */
  function TakeTurn(s: State, frame: seq<byte>, capacity: nat): (t: Turn)
    ensures |t.sent| <= capacity
  {
    match Decode(frame)
    case Err(_) => Turn(s, [], Continue)
    case Ok(p) =>
      if p.protocol == PROTOCOL_LCP then AfterHandling(LcpStep(s, p, capacity > 0), capacity)
      else if p.protocol == PROTOCOL_IPCP then AfterHandling(IpcpStep(s, p, capacity > 0), capacity)
      else Turn(s, [], Continue)
  }

  /** The frames still to be read, the frames written, and how many more writes the link accepts:
      a failed write on the tunnel is final. */
  datatype Wire = Wire(incoming: seq<seq<byte>>, outgoing: seq<seq<byte>>, capacity: nat)

  function Frames(packets: seq<Packet>): seq<seq<byte>> {
    seq(|packets|, i requires 0 <= i < |packets| => Encode(packets[i]))
  }

  function AfterWriting(w: Wire, sent: seq<Packet>): Wire
    requires |sent| <= w.capacity
  {
    Wire(w.incoming, w.outgoing + Frames(sent), w.capacity - |sent|)
  }

  datatype Negotiated = Negotiated(result: Result<Config, SessionError>, state: State, wire: Wire)

  /** The loop of Negotiate. The context is found cancelled after `patience` turns. */
  function Loop(s: State, w: Wire, patience: nat): Negotiated
    decreases |w.incoming|
  {
    if patience == 0 then Negotiated(Err(Cancelled), s, w)
    else if w.incoming == [] then Negotiated(Err(ReadFailed), s, w)
    else
      var turn := TakeTurn(s, w.incoming[0], w.capacity);
      var w' := AfterWriting(w.(incoming := w.incoming[1..]), turn.sent);
      match turn.verdict
      case Fail(e) => Negotiated(Err(e), turn.state, w')
      case Done => Negotiated(Ok(turn.state.negotiated), turn.state, w')
      case Continue => Loop(turn.state, w', patience - 1)
  }

  function Negotiation(s: State, w: Wire, patience: nat): Negotiated {
    var opening := SendLCPRequest(s, w.capacity > 0);
    var w' := AfterWriting(w, opening.sent);
    match opening.failure
    case Some(e) => Negotiated(Err(e), opening.state, w')
    case None => Loop(opening.state, w', patience)
  }

  // --- The session object ---

  /** The link under the session: the peer's frames in order, then a failing read. */
  class Transport {
    var incoming: seq<seq<byte>>
    var outgoing: seq<seq<byte>>
    var capacity: nat

    constructor (incoming: seq<seq<byte>>, capacity: nat)
      ensures Contents() == Wire(incoming, [], capacity)
    {
      this.incoming, this.outgoing, this.capacity := incoming, [], capacity;
    }

    function Contents(): Wire
      reads this
    {
      Wire(incoming, outgoing, capacity)
    }

    method ReadPacket() returns (r: Result<seq<byte>, SessionError>)
      modifies this`incoming
      ensures if old(incoming) == [] then r == Err(ReadFailed) && incoming == []
              else r == Ok(old(incoming)[0]) && incoming == old(incoming)[1..]
    {
      if incoming == [] {
        return Err(ReadFailed);
      }
      r := Ok(incoming[0]);
      incoming := incoming[1..];
    }

    method WritePacket(frame: seq<byte>) returns (ok: bool)
      modifies this`outgoing, this`capacity
      ensures ok <==> old(capacity) > 0
      ensures outgoing == if ok then old(outgoing) + [frame] else old(outgoing)
      ensures capacity == if ok then old(capacity) - 1 else old(capacity)
    {
      ok := capacity > 0;
      if ok {
        outgoing := outgoing + [frame];
        capacity := capacity - 1;
      }
    }
  }

  /** The wire after a handler has done its writing. */
  predicate Wrote(before: Wire, h: Handled, after: Wire) {
    |h.sent| <= before.capacity && after == AfterWriting(before, h.sent)
  }

  class Session {
    const transport: Transport
    const magic: Quad
    var identifier: byte
    var lcpLocalDone: bool
    var lcpRemoteDone: bool
    var ipcpLocalDone: bool
    var ipcpRemoteDone: bool
    var ipcpRequestSent: bool
    var requested: Config
    var negotiated: Config

    constructor (transport: Transport, magic: Quad)
      ensures this.transport == transport && View() == NewState(magic)
    {
      this.transport, this.magic, identifier := transport, magic, 0;
      lcpLocalDone, lcpRemoteDone := false, false;
      ipcpLocalDone, ipcpRemoteDone, ipcpRequestSent := false, false, false;
      requested, negotiated := NO_CONFIG, NO_CONFIG;
    }

    function View(): State
      reads this
    {
      State(magic, identifier, lcpLocalDone, lcpRemoteDone, ipcpLocalDone, ipcpRemoteDone,
            ipcpRequestSent, requested, negotiated)
    }

    method WritePacket(p: Packet) returns (failure: Option<SessionError>)
      modifies transport
      ensures var h := Write(View(), p, old(transport.capacity) > 0);
              failure == h.failure && Wrote(old(transport.Contents()), h, transport.Contents())
    {
      var ok := transport.WritePacket(Encode(p));
      assert Frames([p]) == [Encode(p)];
      assert old(transport.outgoing) + [] == old(transport.outgoing);
      failure := if ok then None else Some(WriteFailed);
    }

    method SendConfigureRequest(protocol: uint16, options: seq<LinkOption>) returns (failure: Option<SessionError>)
      modifies this`identifier, transport
      ensures var h := SendRequest(old(View()), protocol, options, old(transport.capacity) > 0);
              && View() == h.state && failure == h.failure
              && Wrote(old(transport.Contents()), h, transport.Contents())
    {
      identifier := TruncateToByte(identifier + 1);
      var data := EncodeOptions(options);
      failure := WritePacket(Packet(protocol, CONFIGURE_REQUEST, identifier, data));
    }

    method SendLCPConfigureRequest() returns (failure: Option<SessionError>)
      modifies this`identifier, transport
      ensures var h := SendLCPRequest(old(View()), old(transport.capacity) > 0);
              && View() == h.state && failure == h.failure
              && Wrote(old(transport.Contents()), h, transport.Contents())
    {
      failure := SendConfigureRequest(PROTOCOL_LCP, [MruOption(DEFAULT_MRU), MagicNumberOption(magic)]);
    }

    method SendIPCPConfigureRequest() returns (failure: Option<SessionError>)
      modifies this`identifier, this`ipcpRequestSent, transport
      ensures var h := SendIPCPRequest(old(View()), old(transport.capacity) > 0);
              && View() == h.state && failure == h.failure
              && Wrote(old(transport.Contents()), h, transport.Contents())
    {
      ipcpRequestSent := true;
      failure := SendConfigureRequest(PROTOCOL_IPCP,
                                      [IpOption(IPCP_IP_ADDRESS, requested.localIP),
                                       IpOption(IPCP_PRIMARY_DNS, requested.primaryDNS),
                                       IpOption(IPCP_SECOND_DNS, requested.secondDNS)]);
    }

    method AnswerLCPConfigureRequest(p: Packet) returns (failure: Option<SessionError>)
      modifies this`lcpRemoteDone, transport
      ensures var h := AnswerLCPRequest(old(View()), p, old(transport.capacity) > 0);
              && View() == h.state && failure == h.failure
              && Wrote(old(transport.Contents()), h, transport.Contents())
    {
      assert old(transport.outgoing) + [] == old(transport.outgoing);
      var options := DecodeOptions(p.data);
      if options.Err? {
        return Some(UndecodableOptions(options.error));
      }
      var accepted, rejected := ReviewLCPOptions(options.value);
      if |rejected| > 0 {
        var refusal := EncodeOptions(rejected);
        failure := WritePacket(Packet(PROTOCOL_LCP, CONFIGURE_REJECT, p.identifier, refusal));
        return;
      }
      var data := EncodeOptions(accepted);
      failure := WritePacket(Packet(PROTOCOL_LCP, CONFIGURE_ACK, p.identifier, data));
      if failure.None? {
        lcpRemoteDone := true;
      }
    }

    static method RefusedKinds(disputed: seq<LinkOption>) returns (refused: set<byte>)
      ensures forall kind: byte :: kind in refused <==> Mentions(disputed, kind)
    {
      refused := {};
      for i := 0 to |disputed|
        invariant forall kind: byte :: kind in refused <==> Mentions(disputed[..i], kind)
      {
        MentionsGrows(disputed, i);
        refused := refused + {disputed[i].kind};
      }
      assert disputed[..|disputed|] == disputed;
    }

    method ResendLCPConfigureRequestWithout(p: Packet) returns (failure: Option<SessionError>)
      modifies this`identifier, transport
      ensures var h := ResendLCPWithout(old(View()), p, old(transport.capacity) > 0);
              && View() == h.state && failure == h.failure
              && Wrote(old(transport.Contents()), h, transport.Contents())
    {
      assert old(transport.outgoing) + [] == old(transport.outgoing);
      var disputed := DecodeOptions(p.data);
      if disputed.Err? {
        return Some(UndecodableOptions(disputed.error));
      }
      var refused := RefusedKinds(disputed.value);
      var options: seq<LinkOption> := [];
      if LCP_MRU !in refused {
        options := [MruOption(DEFAULT_MRU)];
      }
      if LCP_MAGIC_NUMBER !in refused {
        options := options + [MagicNumberOption(magic)];
      }
      assert options == UndisputedOptions(magic, disputed.value);
      failure := SendConfigureRequest(PROTOCOL_LCP, options);
    }

    method HandleLCP(p: Packet) returns (failure: Option<SessionError>)
      modifies this`identifier, this`lcpLocalDone, this`lcpRemoteDone, transport
      ensures var h := LcpStep(old(View()), p, old(transport.capacity) > 0);
              && View() == h.state && failure == h.failure
              && Wrote(old(transport.Contents()), h, transport.Contents())
    {
      assert old(transport.outgoing) + [] == old(transport.outgoing);
      if p.code == CONFIGURE_REQUEST {
        failure := AnswerLCPConfigureRequest(p);
      } else if p.code == CONFIGURE_ACK {
        lcpLocalDone := true;
        failure := None;
      } else if p.code == CONFIGURE_NAK || p.code == CONFIGURE_REJECT {
        failure := ResendLCPConfigureRequestWithout(p);
      } else if p.code == ECHO_REQUEST {
        failure := WritePacket(Packet(PROTOCOL_LCP, ECHO_REPLY, p.identifier, magic));
      } else if p.code == TERMINATE_REQUEST {
        var _ := WritePacket(Packet(PROTOCOL_LCP, TERMINATE_ACK, p.identifier, []));
        failure := Some(GatewayTerminated);
      } else {
        failure := None;
      }
    }

    method AnswerIPCPConfigureRequest(p: Packet) returns (failure: Option<SessionError>)
      modifies this`negotiated, this`ipcpRemoteDone, transport
      ensures var h := AnswerIPCPRequest(old(View()), p, old(transport.capacity) > 0);
              && View() == h.state && failure == h.failure
              && Wrote(old(transport.Contents()), h, transport.Contents())
    {
      assert old(transport.outgoing) + [] == old(transport.outgoing);
      var options := DecodeOptions(p.data);
      if options.Err? {
        return Some(UndecodableOptions(options.error));
      }
      for i := 0 to |options.value|
        invariant ReadPeerAddress(options.value, old(negotiated).remoteIP)
                  == ReadPeerAddress(options.value[i..], negotiated.remoteIP)
        invariant negotiated == old(negotiated).(remoteIP := negotiated.remoteIP)
        invariant unchanged(this`ipcpRemoteDone) && unchanged(transport)
      {
        assert options.value[i..][1..] == options.value[i + 1..];
        if options.value[i].kind == IPCP_IP_ADDRESS {
          var ip := OptionIP(options.value[i]);
          if ip.Err? {
            return Some(BadAddress(ip.error));
          }
          negotiated := negotiated.(remoteIP := Some(ip.value));
        }
      }
      failure := WritePacket(Packet(PROTOCOL_IPCP, CONFIGURE_ACK, p.identifier, p.data));
      if failure.None? {
        ipcpRemoteDone := true;
      }
    }

    /** adoptIPCPOptions, which overwrites the requested or the negotiated addresses. */
    static method AdoptIPCPOptions(options: seq<LinkOption>, target: Config)
      returns (config: Config, failure: Option<AddressError>)
      ensures Adopted(config, failure) == Adopt(options, target)
    {
      config := target;
      for i := 0 to |options|
        invariant Adopt(options, target) == Adopt(options[i..], config)
      {
        assert options[i..][1..] == options[i + 1..];
        var option := options[i];
        if option.kind == IPCP_IP_ADDRESS || option.kind == IPCP_PRIMARY_DNS || option.kind == IPCP_SECOND_DNS {
          var ip := OptionIP(option);
          if ip.Err? {
            return config, Some(ip.error);
          }
          if option.kind == IPCP_IP_ADDRESS {
            config := config.(localIP := Some(ip.value));
          } else if option.kind == IPCP_PRIMARY_DNS {
            config := config.(primaryDNS := Some(ip.value));
          } else {
            config := config.(secondDNS := Some(ip.value));
          }
        }
      }
      failure := None;
    }

    method HandleRejectedIPCPOptions(options: seq<LinkOption>) returns (addressRejected: bool)
      modifies this`requested
      ensures Dropped(requested, addressRejected) == DropRejected(options, old(requested))
    {
      for i := 0 to |options|
        invariant DropRejected(options, old(requested)) == DropRejected(options[i..], requested)
      {
        assert options[i..][1..] == options[i + 1..];
        if options[i].kind == IPCP_PRIMARY_DNS {
          requested := requested.(primaryDNS := None);
        } else if options[i].kind == IPCP_SECOND_DNS {
          requested := requested.(secondDNS := None);
        } else if options[i].kind == IPCP_IP_ADDRESS {
          return true;
        }
      }
      addressRejected := false;
    }

    method HandleIPCP(p: Packet) returns (failure: Option<SessionError>)
      modifies this, transport
      ensures var h := IpcpStep(old(View()), p, old(transport.capacity) > 0);
              && View() == h.state && failure == h.failure
              && Wrote(old(transport.Contents()), h, transport.Contents())
    {
      hide ParseOptions, RenderOptions, Adopt, DropRejected, AnswerIPCPRequest, SendIPCPRequest, Encode;
      assert old(transport.outgoing) + [] == old(transport.outgoing);
      if p.code == CONFIGURE_REQUEST {
        failure := AnswerIPCPConfigureRequest(p);
      } else if p.code == CONFIGURE_ACK || p.code == CONFIGURE_NAK || p.code == CONFIGURE_REJECT {
        var options := DecodeOptions(p.data);
        if options.Err? {
          return Some(UndecodableOptions(options.error));
        }
        if p.code == CONFIGURE_ACK {
          var config, bad := AdoptIPCPOptions(options.value, negotiated);
          negotiated := config;
          if bad.Some? {
            return Some(BadAddress(bad.value));
          }
          ipcpLocalDone := true;
          failure := None;
        } else if p.code == CONFIGURE_NAK {
          var config, bad := AdoptIPCPOptions(options.value, requested);
          requested := config;
          if bad.Some? {
            return Some(BadAddress(bad.value));
          }
          failure := SendIPCPConfigureRequest();
        } else {
          var addressRejected := HandleRejectedIPCPOptions(options.value);
          if addressRejected {
            return Some(AddressRejected);
          }
          failure := SendIPCPConfigureRequest();
        }
      } else if p.code == TERMINATE_REQUEST {
        failure := WritePacket(Packet(PROTOCOL_IPCP, TERMINATE_ACK, p.identifier, []));
      } else {
        failure := None;
      }
    }

    /** A control packet received once the link is up. */
    method HandleControl(p: Packet) returns (failure: Option<SessionError>)
      modifies this, transport
      ensures var h := if p.protocol == PROTOCOL_LCP then LcpStep(old(View()), p, old(transport.capacity) > 0)
                       else if p.protocol == PROTOCOL_IPCP then IpcpStep(old(View()), p, old(transport.capacity) > 0)
                       else Handled(old(View()), [], None);
              && View() == h.state && failure == h.failure
              && Wrote(old(transport.Contents()), h, transport.Contents())
    {
      assert old(transport.outgoing) + [] == old(transport.outgoing);
      if p.protocol == PROTOCOL_LCP {
        failure := HandleLCP(p);
      } else if p.protocol == PROTOCOL_IPCP {
        failure := HandleIPCP(p);
      } else {
        failure := None;
      }
    }

    /** One turn of the loop: the verdict says whether it goes on, ends or fails. */
    method HandleFrame(frame: seq<byte>) returns (verdict: Verdict)
      modifies this, transport
      ensures var turn := TakeTurn(old(View()), frame, old(transport.capacity));
              && View() == turn.state && verdict == turn.verdict
              && transport.Contents() == AfterWriting(old(transport.Contents()), turn.sent)
    {
      assert old(transport.outgoing) + [] == old(transport.outgoing);
      var decoded := Decode(frame);
      if decoded.Err? {
        return Continue;
      }
      var p := decoded.value;
      if p.protocol != PROTOCOL_LCP && p.protocol != PROTOCOL_IPCP {
        return Continue;
      }
      var failure := HandleControl(p);
      if failure.Some? {
        return Fail(failure.value);
      }
      ghost var handled := if p.protocol == PROTOCOL_LCP then LcpStep(old(View()), p, old(transport.capacity) > 0)
                           else IpcpStep(old(View()), p, old(transport.capacity) > 0);
      ghost var between := transport.Contents();
      assert between == AfterWriting(old(transport.Contents()), handled.sent);
      assert between.outgoing + [] == between.outgoing && handled.sent + [] == handled.sent;
      if lcpLocalDone && lcpRemoteDone && !ipcpRequestSent {
        failure := SendIPCPConfigureRequest();
        ghost var started := SendIPCPRequest(handled.state, between.capacity > 0);
        WritesCompose(old(transport.Contents()), handled.sent, started.sent);
        if failure.Some? {
          return Fail(failure.value);
        }
      }
      verdict := if ipcpLocalDone && ipcpRemoteDone then Done else Continue;
    }

    method Negotiate(patience: nat) returns (r: Result<Config, SessionError>)
      modifies this, transport
      ensures Negotiated(r, View(), transport.Contents())
              == Negotiation(old(View()), old(transport.Contents()), patience)
    {
      hide TakeTurn, Frames;
      var failure := SendLCPConfigureRequest();
      if failure.Some? {
        return Err(failure.value);
      }
      var turns := 0;
      while true
        invariant turns <= patience
        invariant Negotiation(old(View()), old(transport.Contents()), patience)
                  == Loop(View(), transport.Contents(), patience - turns)
        decreases |transport.incoming|
      {
        if turns == patience {
          return Err(Cancelled);
        }
        var frame := transport.ReadPacket();
        if frame.Err? {
          return Err(frame.error);
        }
        var verdict := HandleFrame(frame.value);
        match verdict {
          case Fail(e) => return Err(e);
          case Done => return Ok(negotiated);
          case Continue =>
        }
        turns := turns + 1;
      }
    }
  }

  lemma FramesAppend(a: seq<Packet>, b: seq<Packet>)
    ensures Frames(a + b) == Frames(a) + Frames(b)
  {
    hide Encode;
    forall i | 0 <= i < |a| + |b|
      ensures Frames(a + b)[i] == (Frames(a) + Frames(b))[i]
    {
      assert (a + b)[i] == if i < |a| then a[i] else b[i - |a|];
    }
  }

  lemma WritesCompose(w: Wire, a: seq<Packet>, b: seq<Packet>)
    requires |a| + |b| <= w.capacity
    ensures AfterWriting(AfterWriting(w, a), b) == AfterWriting(w, a + b)
  {
    hide Encode;
    FramesAppend(a, b);
    var x, y := Frames(a), Frames(b);
    assert |x| == |a| && |y| == |b|;
    hide Frames;
    assert w.outgoing + x + y == w.outgoing + (x + y);
  }

  lemma MentionsGrows(options: seq<LinkOption>, i: nat)
    requires i < |options|
    ensures forall kind: byte :: Mentions(options[..i + 1], kind)
                                 <==> Mentions(options[..i], kind) || kind == options[i].kind
  {
    assert options[..i + 1] == options[..i] + [options[i]];
    forall kind: byte | Mentions(options[..i], kind)
      ensures Mentions(options[..i + 1], kind)
    {
      var j :| 0 <= j < i && options[..i][j].kind == kind;
      assert options[..i + 1][j].kind == kind;
    }
    assert options[..i + 1][i].kind == options[i].kind;
  }
}
