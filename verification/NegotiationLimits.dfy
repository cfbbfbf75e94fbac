/** What a run of Negotiate comes to against any peer at all, read off the frames that the peer sent. */
module NegotiationLimits {
  import opened Bytes
  import opened LinkOptions
  import opened NegotiationSafety
  import opened Packets
  import opened Sessions

  // --- What a frame says ---

  /** The peer acknowledges an LCP configuration. */
  predicate AcksLcp(frame: seq<byte>) {
    Decode(frame).Ok? && IsLcpAck(Decode(frame).value)
  }

  /** The peer asks for an LCP configuration with nothing in it to reject. */
  predicate AsksForLcp(frame: seq<byte>) {
    && Decode(frame).Ok?
    && Decode(frame).value.protocol == PROTOCOL_LCP && Decode(frame).value.code == CONFIGURE_REQUEST
    && ParseOptions(Decode(frame).value.data).Ok?
    && Rejected(ParseOptions(Decode(frame).value.data).value) == []
  }

  /** The peer refuses an IPCP configuration in a way that makes the session ask again. */
  predicate RefusesIpcp(frame: seq<byte>) {
    Decode(frame).Ok? && RefusesIpcpWith(Decode(frame).value)
  }

  predicate RefusesIpcpWith(p: Packet) {
    && p.protocol == PROTOCOL_IPCP && ParseOptions(p.data).Ok?
    && (|| (p.code == CONFIGURE_NAK && Adopt(ParseOptions(p.data).value, NO_CONFIG).failure.None?)
        || (p.code == CONFIGURE_REJECT && !DropRejected(ParseOptions(p.data).value, NO_CONFIG).addressRejected))
  }

  predicate SomeFrame(frames: seq<seq<byte>>, says: seq<byte> -> bool) {
    exists i :: 0 <= i < |frames| && says(frames[i])
  }

  /** The frames so far have opened LCP in both directions. */
  predicate OpensLcp(frames: seq<seq<byte>>) {
    SomeFrame(frames, AcksLcp) && SomeFrame(frames, AsksForLcp)
  }

  /** The peer acknowledges an IPCP configuration with an address for this end in it. */
  predicate AcksAddress(frame: seq<byte>) {
    && Decode(frame).Ok?
    && Decode(frame).value.protocol == PROTOCOL_IPCP && Decode(frame).value.code == CONFIGURE_ACK
    && LastValue(OptionsOf(Decode(frame).value), IPCP_IP_ADDRESS).Some?
  }

  /** The address of a kind that the peer acknowledged last, whatever was asked for. */
  function Acknowledged(frames: seq<seq<byte>>, kind: byte): Option<seq<byte>> {
    if frames == [] then None
    else
      var last := Decode(frames[|frames| - 1]);
      if last.Ok? && last.value.protocol == PROTOCOL_IPCP && last.value.code == CONFIGURE_ACK
         && LastValue(OptionsOf(last.value), kind).Some?
      then LastValue(OptionsOf(last.value), kind)
      else Acknowledged(frames[..|frames| - 1], kind)
  }

  /** The address the peer gave last for its own end. */
  function PeerAddress(frames: seq<seq<byte>>): Option<seq<byte>> {
    if frames == [] then None
    else
      var last := Decode(frames[|frames| - 1]);
      if last.Ok? && last.value.protocol == PROTOCOL_IPCP && last.value.code == CONFIGURE_REQUEST
         && LastValue(OptionsOf(last.value), IPCP_IP_ADDRESS).Some?
      then LastValue(OptionsOf(last.value), IPCP_IP_ADDRESS)
      else PeerAddress(frames[..|frames| - 1])
  }

  // --- The fields of the session, against the frames read so far ---

  ghost predicate Tells(read: seq<seq<byte>>, s: State) {
    && (s.lcpLocalDone <==> SomeFrame(read, AcksLcp))
    && (s.lcpRemoteDone <==> SomeFrame(read, AsksForLcp))
    && (forall kind: byte :: IsAddressKind(kind) ==> Field(s.negotiated, kind) == Acknowledged(read, kind))
    && s.negotiated.remoteIP == PeerAddress(read)
  }

  lemma SomeFrameGrows(frames: seq<seq<byte>>, f: seq<byte>, says: seq<byte> -> bool)
    ensures SomeFrame(frames + [f], says) <==> SomeFrame(frames, says) || says(f)
  {
    if SomeFrame(frames, says) {
      var i :| 0 <= i < |frames| && says(frames[i]);
      assert (frames + [f])[i] == frames[i];
    }
    assert (frames + [f])[|frames|] == f;
  }

  lemma {:induction false} AdoptingFailsAlike(options: seq<LinkOption>, target: Config, other: Config)
    ensures Adopt(options, target).failure == Adopt(options, other).failure
  {
    if options != [] {
      AdoptingFailsAlike(options[1..], AdoptOne(options[0], target).config, AdoptOne(options[0], other).config);
    }
  }

  function DropOne(option: LinkOption, requested: Config): Config {
    if option.kind == IPCP_PRIMARY_DNS then requested.(primaryDNS := None)
    else if option.kind == IPCP_SECOND_DNS then requested.(secondDNS := None)
    else requested
  }

  lemma {:induction false} DroppingFailsAlike(options: seq<LinkOption>, requested: Config, other: Config)
    ensures DropRejected(options, requested).addressRejected == DropRejected(options, other).addressRejected
  {
    if options != [] {
      DroppingFailsAlike(options[1..], DropOne(options[0], requested), DropOne(options[0], other));
    }
  }

  lemma LcpStepTells(s: State, p: Packet, writable: bool)
    requires p.protocol == PROTOCOL_LCP && LcpStep(s, p, writable).failure.None?
    ensures var s' := LcpStep(s, p, writable).state;
            && s'.negotiated == s.negotiated
            && (s'.lcpLocalDone <==> s.lcpLocalDone || IsLcpAck(p))
            && (s'.lcpRemoteDone <==>
                  || s.lcpRemoteDone
                  || (p.code == CONFIGURE_REQUEST && ParseOptions(p.data).Ok?
                      && Rejected(ParseOptions(p.data).value) == []))
  {
    hide ParseOptions, RenderOptions, Rejected, Accepted, UndisputedOptions;
  }

  lemma IpcpAckTells(s: State, p: Packet, writable: bool, kind: byte)
    requires p.code == CONFIGURE_ACK && IpcpStep(s, p, writable).failure.None? && IsAddressKind(kind)
    ensures var s' := IpcpStep(s, p, writable).state;
            && s'.lcpLocalDone == s.lcpLocalDone && s'.lcpRemoteDone == s.lcpRemoteDone
            && Field(s'.negotiated, kind)
               == (if p.code == CONFIGURE_ACK && LastValue(OptionsOf(p), kind).Some? then LastValue(OptionsOf(p), kind)
                   else Field(s.negotiated, kind))
            && s'.negotiated.remoteIP
               == (if p.code == CONFIGURE_REQUEST && LastValue(OptionsOf(p), IPCP_IP_ADDRESS).Some?
                   then LastValue(OptionsOf(p), IPCP_IP_ADDRESS) else s.negotiated.remoteIP)
  {
    hide ParseOptions, RenderOptions, LastValue, Adopt;
    AdoptTakesLastValues(ParseOptions(p.data).value, s.negotiated, kind);
  }

  lemma IpcpRequestTells(s: State, p: Packet, writable: bool, kind: byte)
    requires p.code == CONFIGURE_REQUEST && IpcpStep(s, p, writable).failure.None? && IsAddressKind(kind)
    ensures var s' := IpcpStep(s, p, writable).state;
            && s'.lcpLocalDone == s.lcpLocalDone && s'.lcpRemoteDone == s.lcpRemoteDone
            && Field(s'.negotiated, kind)
               == (if p.code == CONFIGURE_ACK && LastValue(OptionsOf(p), kind).Some? then LastValue(OptionsOf(p), kind)
                   else Field(s.negotiated, kind))
            && s'.negotiated.remoteIP
               == (if p.code == CONFIGURE_REQUEST && LastValue(OptionsOf(p), IPCP_IP_ADDRESS).Some?
                   then LastValue(OptionsOf(p), IPCP_IP_ADDRESS) else s.negotiated.remoteIP)
  {
    hide ParseOptions, RenderOptions, LastValue, ReadPeerAddress;
    PeerAddressIsLastValue(ParseOptions(p.data).value, s.negotiated.remoteIP);
  }

  lemma OtherIpcpTells(s: State, p: Packet, writable: bool)
    requires p.code != CONFIGURE_ACK && p.code != CONFIGURE_REQUEST
    requires IpcpStep(s, p, writable).failure.None?
    ensures var s' := IpcpStep(s, p, writable).state;
            && s'.lcpLocalDone == s.lcpLocalDone && s'.lcpRemoteDone == s.lcpRemoteDone
            && s'.negotiated == s.negotiated
  {
    hide ParseOptions, RenderOptions, IPCPOptions, Adopt, DropRejected;
  }

  lemma IpcpStepTells(s: State, p: Packet, writable: bool, kind: byte)
    requires IpcpStep(s, p, writable).failure.None? && IsAddressKind(kind)
    ensures var s' := IpcpStep(s, p, writable).state;
            && s'.lcpLocalDone == s.lcpLocalDone && s'.lcpRemoteDone == s.lcpRemoteDone
            && Field(s'.negotiated, kind)
               == (if p.code == CONFIGURE_ACK && LastValue(OptionsOf(p), kind).Some? then LastValue(OptionsOf(p), kind)
                   else Field(s.negotiated, kind))
            && s'.negotiated.remoteIP
               == (if p.code == CONFIGURE_REQUEST && LastValue(OptionsOf(p), IPCP_IP_ADDRESS).Some?
                   then LastValue(OptionsOf(p), IPCP_IP_ADDRESS) else s.negotiated.remoteIP)
  {
    hide IpcpStep, LastValue, ParseOptions;
    if p.code == CONFIGURE_ACK {
      IpcpAckTells(s, p, writable, kind);
    } else if p.code == CONFIGURE_REQUEST {
      IpcpRequestTells(s, p, writable, kind);
    } else {
      OtherIpcpTells(s, p, writable);
    }
  }

  /** Starting IPCP touches neither the LCP flags nor the addresses. */
  lemma StartingTellsNothing(h: Handled, capacity: nat)
    requires |h.sent| <= capacity && !AfterHandling(h, capacity).verdict.Fail?
    ensures h.failure.None?
    ensures var s' := AfterHandling(h, capacity).state;
            && s'.lcpLocalDone == h.state.lcpLocalDone && s'.lcpRemoteDone == h.state.lcpRemoteDone
            && s'.negotiated == h.state.negotiated
  {
    hide RenderOptions, IPCPOptions;
  }

  lemma TurnTells(read: seq<seq<byte>>, s: State, frame: seq<byte>, capacity: nat)
    requires Tells(read, s) && !TakeTurn(s, frame, capacity).verdict.Fail?
    ensures Tells(read + [frame], TakeTurn(s, frame, capacity).state)
  {
    hide Decode, LcpStep, IpcpStep, AfterHandling, LastValue, ParseOptions, Rejected, SomeFrame;
    var s' := TakeTurn(s, frame, capacity).state;
    SomeFrameGrows(read, frame, AcksLcp);
    SomeFrameGrows(read, frame, AsksForLcp);
    assert (read + [frame])[..|read|] == read && (read + [frame])[|read|] == frame;
    if Decode(frame).Ok? {
      var p := Decode(frame).value;
      if p.protocol == PROTOCOL_LCP {
        var h := LcpStep(s, p, capacity > 0);
        StartingTellsNothing(h, capacity);
        LcpStepTells(s, p, capacity > 0);
      } else if p.protocol == PROTOCOL_IPCP {
        var h := IpcpStep(s, p, capacity > 0);
        StartingTellsNothing(h, capacity);
        forall kind: byte | IsAddressKind(kind)
          ensures Field(s'.negotiated, kind) == Acknowledged(read + [frame], kind)
        {
          IpcpStepTells(s, p, capacity > 0, kind);
        }
        IpcpStepTells(s, p, capacity > 0, IPCP_IP_ADDRESS);
      }
    }
  }

  /** The frames that a run took from the link. */
  function Consumed(w: Wire, n: Negotiated): seq<seq<byte>>
    requires |n.wire.incoming| <= |w.incoming|
  {
    w.incoming[..|w.incoming| - |n.wire.incoming|]
  }

  lemma {:induction false} LoopConsumes(s: State, w: Wire, patience: nat)
    ensures |Loop(s, w, patience).wire.incoming| <= |w.incoming|
    ensures Loop(s, w, patience).result == Err(WriteFailed) ==> |Loop(s, w, patience).wire.incoming| < |w.incoming|
    decreases |w.incoming|
  {
    hide TakeTurn, Sessions.Frames;
    if patience > 0 && w.incoming != [] {
      var turn := TakeTurn(s, w.incoming[0], w.capacity);
      var w' := AfterWriting(w.(incoming := w.incoming[1..]), turn.sent);
      if turn.verdict.Continue? {
        LoopConsumes(turn.state, w', patience - 1);
      }
    }
  }

  lemma {:induction false} LoopTells(read: seq<seq<byte>>, s: State, w: Wire, patience: nat)
    requires Tells(read, s)
    ensures |Loop(s, w, patience).wire.incoming| <= |w.incoming|
    ensures var n := Loop(s, w, patience);
            n.result.Ok? ==> Tells(read + Consumed(w, n), n.state) && n.result.value == n.state.negotiated
    decreases |w.incoming|
  {
    hide TakeTurn, Sessions.Frames, Tells;
    LoopConsumes(s, w, patience);
    if patience > 0 && w.incoming != [] {
      var frame, rest := w.incoming[0], w.incoming[1..];
      var turn := TakeTurn(s, frame, w.capacity);
      var w' := AfterWriting(w.(incoming := rest), turn.sent);
      var n := Loop(s, w, patience);
      if !turn.verdict.Fail? {
        TurnTells(read, s, frame, w.capacity);
      }
      if turn.verdict.Continue? {
        LoopTells(read + [frame], turn.state, w', patience - 1);
        assert Consumed(w, n) == [frame] + Consumed(w', n);
        assert read + ([frame] + Consumed(w', n)) == (read + [frame]) + Consumed(w', n);
      } else {
        assert n.wire.incoming == rest;
        assert Consumed(w, n) == [frame];
      }
    }
  }

  lemma {:induction false} AddressIsAcknowledged(read: seq<seq<byte>>)
    ensures Acknowledged(read, IPCP_IP_ADDRESS).Some? <==> SomeFrame(read, AcksAddress)
  {
    assert !SomeFrame([], AcksAddress);
    hide Decode, LastValue, SomeFrame;
    if read != [] {
      var early, last := read[..|read| - 1], read[|read| - 1];
      AddressIsAcknowledged(early);
      assert read == early + [last];
      SomeFrameGrows(early, last, AcksAddress);
    }
  }

  ghost predicate HoldsWhatWasSaid(config: Config, read: seq<seq<byte>>) {
    && config.localIP == Acknowledged(read, IPCP_IP_ADDRESS)
    && config.primaryDNS == Acknowledged(read, IPCP_PRIMARY_DNS)
    && config.secondDNS == Acknowledged(read, IPCP_SECOND_DNS)
    && config.remoteIP == PeerAddress(read)
  }

  /** For every run of Negotiate, whatever the peer sends: a success comes with LCP open in both directions
      exactly when some frame that was read acknowledges an LCP configuration and some frame asks for an
      acceptable one, and with an address of its own exactly when some frame acknowledges one; and each
      address it returns is the last one the peer acknowledged, or gave for itself, if it ever did. */
  lemma WhatSuccessMeans(magic: Quad, w: Wire, patience: nat)
    ensures |Negotiation(NewState(magic), w, patience).wire.incoming| <= |w.incoming|
    ensures var n := Negotiation(NewState(magic), w, patience);
            var read := Consumed(w, n);
            n.result.Ok? ==>
              && (n.state.lcpLocalDone <==> SomeFrame(read, AcksLcp))
              && (n.state.lcpRemoteDone <==> SomeFrame(read, AsksForLcp))
              && (n.state.lcpLocalDone && n.state.lcpRemoteDone <==> OpensLcp(read))
              && HoldsWhatWasSaid(n.result.value, read)
              && (n.state.lcpLocalDone && n.state.lcpRemoteDone && n.result.value.localIP.Some?
                  <==> OpensLcp(read) && SomeFrame(read, AcksAddress))
  {
    var s := NewState(magic);
    var opening := SendLCPRequest(s, w.capacity > 0);
    assert Tells([], opening.state);
    hide Loop, Sessions.Frames, RenderOptions, SomeFrame, Acknowledged, PeerAddress;
    if opening.failure.None? {
      var w' := AfterWriting(w, opening.sent);
      LoopTells([], opening.state, w', patience);
      var n := Loop(opening.state, w', patience);
      assert [] + Consumed(w', n) == Consumed(w, n);
      assert IsAddressKind(IPCP_IP_ADDRESS) && IsAddressKind(IPCP_PRIMARY_DNS) && IsAddressKind(IPCP_SECOND_DNS);
      var c := n.state.negotiated;
      assert Field(c, IPCP_IP_ADDRESS) == c.localIP;
      assert Field(c, IPCP_PRIMARY_DNS) == c.primaryDNS;
      assert Field(c, IPCP_SECOND_DNS) == c.secondDNS;
      AddressIsAcknowledged(Consumed(w, n));
    }
  }

  // --- When an IPCP request goes out before LCP is open ---

  ghost predicate IpcpAfterLcp(t: seq<Event>) {
    forall k: nat :: k < |t| && SendsRequest(t[k], PROTOCOL_IPCP) ==> LcpOpened(t[..k])
  }

  lemma OrderGrows(t: seq<Event>, e: Event)
    ensures IpcpAfterLcp(t + [e]) <==> IpcpAfterLcp(t) && (SendsRequest(e, PROTOCOL_IPCP) ==> LcpOpened(t))
  {
    var t' := t + [e];
    assert t'[|t|] == e && t'[..|t|] == t;
    assert forall k: nat :: k < |t| ==> t'[k] == t[k] && t'[..k] == t[..k];
    if IpcpAfterLcp(t') {
      forall k: nat | k < |t| && SendsRequest(t[k], PROTOCOL_IPCP)
        ensures LcpOpened(t[..k])
      {
        assert SendsRequest(t'[k], PROTOCOL_IPCP);
      }
    }
  }

  /** The LCP flags are what the trace says. */
  ghost predicate FlagsTraced(t: seq<Event>, s: State) {
    && (s.lcpLocalDone <==> AckReceived(t))
    && (s.lcpRemoteDone <==> AckSent(t))
  }

  /** Handling one LCP packet sends no IPCP request, and acknowledges LCP exactly when it says so. */
  lemma LcpSendsNoIpcp(s: State, p: Packet, writable: bool)
    requires p.protocol == PROTOCOL_LCP
    ensures var h := LcpStep(s, p, writable);
            && (forall i :: 0 <= i < |h.sent| ==> h.sent[i].protocol == PROTOCOL_LCP)
            && (h.failure.None? ==>
                  (h.state.lcpRemoteDone <==> s.lcpRemoteDone || (|h.sent| == 1 && IsLcpAck(h.sent[0]))))
            && (h.failure.None? ==> (h.state.lcpLocalDone <==> s.lcpLocalDone || IsLcpAck(p)))
  {
    hide ParseOptions, RenderOptions, Rejected, Accepted, UndisputedOptions;
  }

  lemma RefusalAsksAgain(s: State, p: Packet, writable: bool)
    requires p.protocol == PROTOCOL_IPCP && (p.code == CONFIGURE_NAK || p.code == CONFIGURE_REJECT)
    ensures var h := IpcpStep(s, p, writable);
            && (forall i :: 0 <= i < |h.sent| ==> h.sent[i].protocol == PROTOCOL_IPCP)
            && (|h.sent| == 1 && h.sent[0].code == CONFIGURE_REQUEST
                <==> RefusesIpcpWith(p) && h.failure != Some(WriteFailed))
            && h.state.lcpLocalDone == s.lcpLocalDone && h.state.lcpRemoteDone == s.lcpRemoteDone
            && (RefusesIpcpWith(p) && h.failure.None? ==> h.state.ipcpRequestSent)
  {
    hide ParseOptions, RenderOptions, IPCPOptions, Adopt, DropRejected;
    if ParseOptions(p.data).Ok? {
      AdoptingFailsAlike(ParseOptions(p.data).value, s.requested, NO_CONFIG);
      DroppingFailsAlike(ParseOptions(p.data).value, s.requested, NO_CONFIG);
    }
  }

  lemma OthersDoNotAsk(s: State, p: Packet, writable: bool)
    requires p.protocol == PROTOCOL_IPCP && p.code != CONFIGURE_NAK && p.code != CONFIGURE_REJECT
    ensures var h := IpcpStep(s, p, writable);
            && (forall i :: 0 <= i < |h.sent| ==> h.sent[i].protocol == PROTOCOL_IPCP)
            && (|h.sent| == 1 && h.sent[0].code == CONFIGURE_REQUEST
                <==> RefusesIpcpWith(p) && h.failure != Some(WriteFailed))
            && h.state.lcpLocalDone == s.lcpLocalDone && h.state.lcpRemoteDone == s.lcpRemoteDone
            && (RefusesIpcpWith(p) && h.failure.None? ==> h.state.ipcpRequestSent)
  {
    hide ParseOptions, RenderOptions, IPCPOptions, Adopt, ReadPeerAddress, DropRejected;
  }

  /** Handling one IPCP packet asks again exactly when the packet is a refusal that makes it, and the link
      takes the request. */
  lemma IpcpAsksAgain(s: State, p: Packet, writable: bool)
    requires p.protocol == PROTOCOL_IPCP
    ensures var h := IpcpStep(s, p, writable);
            && (forall i :: 0 <= i < |h.sent| ==> h.sent[i].protocol == PROTOCOL_IPCP)
            && (|h.sent| == 1 && h.sent[0].code == CONFIGURE_REQUEST
                <==> RefusesIpcpWith(p) && h.failure != Some(WriteFailed))
            && h.state.lcpLocalDone == s.lcpLocalDone && h.state.lcpRemoteDone == s.lcpRemoteDone
            && (RefusesIpcpWith(p) && h.failure.None? ==> h.state.ipcpRequestSent)
  {
    hide IpcpStep, RefusesIpcpWith;
    if p.code == CONFIGURE_NAK || p.code == CONFIGURE_REJECT {
      RefusalAsksAgain(s, p, writable);
    } else {
      OthersDoNotAsk(s, p, writable);
    }
  }

  /** One packet handled, as far as the order of the two protocols goes. */
  lemma HandlingKeepsOrder(t: seq<Event>, s: State, p: Packet, h: Handled)
    requires FlagsTraced(t, s) && |h.sent| <= 1
    requires forall i :: 0 <= i < |h.sent| ==> h.sent[i].protocol == p.protocol
    requires h.failure.None? ==> (h.state.lcpLocalDone <==> s.lcpLocalDone || IsLcpAck(p))
    requires h.failure.None? ==>
               (h.state.lcpRemoteDone <==> s.lcpRemoteDone || (|h.sent| == 1 && IsLcpAck(h.sent[0])))
    ensures var t' := t + [Received(p)] + Writes(h.sent);
            && (IpcpAfterLcp(t') <==>
                  && IpcpAfterLcp(t)
                  && (p.protocol == PROTOCOL_IPCP && |h.sent| == 1 && h.sent[0].code == CONFIGURE_REQUEST ==>
                        s.lcpLocalDone && s.lcpRemoteDone))
            && (h.failure.None? ==> FlagsTraced(t', h.state))
  {
    hide IpcpAfterLcp, AckReceived, AckSent;
    var t1 := t + [Received(p)];
    OrderGrows(t, Received(p));
    AcksGrow(t, Received(p));
    WritesOf(h.sent);
    if h.sent == [] {
      assert t1 + [] == t1;
    } else {
      OrderGrows(t1, Sent(h.sent[0]));
      AcksGrow(t1, Sent(h.sent[0]));
    }
  }

  /** Starting IPCP waits for LCP. */
  lemma StartingKeepsOrder(t: seq<Event>, h: Handled, capacity: nat)
    requires |h.sent| <= 1 && |h.sent| <= capacity && (h.failure.None? ==> FlagsTraced(t, h.state))
    ensures |h.sent| <= |AfterHandling(h, capacity).sent|
    ensures var turn := AfterHandling(h, capacity);
            var t' := t + Writes(turn.sent[|h.sent|..]);
            && turn.sent[..|h.sent|] == h.sent
            && (IpcpAfterLcp(t') <==> IpcpAfterLcp(t))
            && (!turn.verdict.Fail? ==> FlagsTraced(t', turn.state))
  {
    hide IpcpAfterLcp, RenderOptions, IPCPOptions, AckReceived, AckSent;
    var turn := AfterHandling(h, capacity);
    var started := turn.sent[|h.sent|..];
    WritesOf(started);
    if started == [] {
      assert t + [] == t;
    } else {
      OrderGrows(t, Sent(started[0]));
      AcksGrow(t, Sent(started[0]));
    }
  }

  /** A failed write in a turn that was to ask again is the failure to ask. */
  lemma WriteFailureIsTheRequest(s: State, p: Packet, capacity: nat)
    requires p.protocol == PROTOCOL_IPCP && RefusesIpcpWith(p)
    ensures var h := IpcpStep(s, p, capacity > 0);
            AfterHandling(h, capacity).verdict == Fail(WriteFailed) <==> h.failure == Some(WriteFailed)
  {
    hide ParseOptions, RenderOptions, IPCPOptions, Adopt, DropRejected;
    IpcpAsksAgain(s, p, capacity > 0);
  }

  lemma TurnKeepsOrder(t: seq<Event>, s: State, frame: seq<byte>, capacity: nat)
    requires FlagsTraced(t, s)
    ensures var turn := TakeTurn(s, frame, capacity);
            var t' := t + TurnEvents(s, frame, capacity);
            && (IpcpAfterLcp(t') <==>
                  && IpcpAfterLcp(t)
                  && (RefusesIpcp(frame) && turn.verdict != Fail(WriteFailed) ==> s.lcpLocalDone && s.lcpRemoteDone))
            && (!turn.verdict.Fail? ==> FlagsTraced(t', turn.state))
  {
    hide Decode, LcpStep, IpcpStep, AfterHandling, IpcpAfterLcp, FlagsTraced, RefusesIpcpWith;
    if Decode(frame).Err? {
      assert t + [] == t;
    } else {
      var p := Decode(frame).value;
      if p.protocol == PROTOCOL_LCP || p.protocol == PROTOCOL_IPCP {
        StepKeepsOrder(t, s, p, capacity);
      } else {
        ForeignKeepsOrder(t, s, p);
        assert Writes([]) == [];
        assert t + ([Received(p)] + []) == t + [Received(p)];
      }
    }
  }

  lemma ForeignKeepsOrder(t: seq<Event>, s: State, p: Packet)
    requires FlagsTraced(t, s) && p.protocol != PROTOCOL_LCP && p.protocol != PROTOCOL_IPCP
    ensures IpcpAfterLcp(t + [Received(p)]) <==> IpcpAfterLcp(t)
    ensures FlagsTraced(t + [Received(p)], s) && !RefusesIpcpWith(p)
  {
    hide IpcpAfterLcp;
    OrderGrows(t, Received(p));
    AcksGrow(t, Received(p));
  }

  lemma StepKeepsOrder(t: seq<Event>, s: State, p: Packet, capacity: nat)
    requires FlagsTraced(t, s) && (p.protocol == PROTOCOL_LCP || p.protocol == PROTOCOL_IPCP)
    ensures var h := if p.protocol == PROTOCOL_LCP then LcpStep(s, p, capacity > 0) else IpcpStep(s, p, capacity > 0);
            var turn := AfterHandling(h, capacity);
            var t' := t + ([Received(p)] + Writes(turn.sent));
            && (IpcpAfterLcp(t') <==>
                  && IpcpAfterLcp(t)
                  && (RefusesIpcpWith(p) && turn.verdict != Fail(WriteFailed) ==> s.lcpLocalDone && s.lcpRemoteDone))
            && (!turn.verdict.Fail? ==> FlagsTraced(t', turn.state))
  {
    hide LcpStep, IpcpStep, AfterHandling, IpcpAfterLcp, FlagsTraced;
    var h := if p.protocol == PROTOCOL_LCP then LcpStep(s, p, capacity > 0) else IpcpStep(s, p, capacity > 0);
    if p.protocol == PROTOCOL_LCP {
      LcpSendsNoIpcp(s, p, capacity > 0);
    } else {
      IpcpAsksAgain(s, p, capacity > 0);
      if RefusesIpcpWith(p) {
        WriteFailureIsTheRequest(s, p, capacity);
      }
    }
    HandlingKeepsOrder(t, s, p, h);
    var t1 := t + [Received(p)] + Writes(h.sent);
    StartingKeepsOrder(t1, h, capacity);
    var turn := AfterHandling(h, capacity);
    WritesAppend(h.sent, turn.sent[|h.sent|..]);
    assert turn.sent == h.sent + turn.sent[|h.sent|..];
    assert t1 + Writes(turn.sent[|h.sent|..]) == t + ([Received(p)] + Writes(turn.sent));
  }

  /** The frames that were answered, all but the one whose answer the link did not take. */
  function Answered(read: seq<seq<byte>>, n: Negotiated): seq<seq<byte>> {
    if n.result == Err(WriteFailed) && read != [] then read[..|read| - 1] else read
  }

  /** Each refusal that makes the session ask again for IPCP came after frames that opened LCP. */
  predicate RefusesInOrder(before: seq<seq<byte>>, frames: seq<seq<byte>>) {
    forall i :: 0 <= i < |frames| && RefusesIpcp(frames[i]) ==> OpensLcp(before + frames[..i])
  }

  lemma RefusalsSplit(before: seq<seq<byte>>, frame: seq<byte>, frames: seq<seq<byte>>)
    ensures RefusesInOrder(before, [frame] + frames)
            <==> (RefusesIpcp(frame) ==> OpensLcp(before)) && RefusesInOrder(before + [frame], frames)
  {
    hide RefusesIpcp, OpensLcp;
    var all := [frame] + frames;
    assert before + all[..0] == before;
    forall i | 0 <= i < |frames|
      ensures all[i + 1] == frames[i] && before + all[..i + 1] == before + [frame] + frames[..i]
    {
    }
    if RefusesInOrder(before, all) {
      assert RefusesIpcp(all[0]) ==> OpensLcp(before + all[..0]);
      forall i | 0 <= i < |frames| && RefusesIpcp(frames[i])
        ensures OpensLcp(before + [frame] + frames[..i])
      {
        assert RefusesIpcp(all[i + 1]);
      }
    } else {
      var i :| 0 <= i < |all| && RefusesIpcp(all[i]) && !OpensLcp(before + all[..i]);
      assert i > 0 ==> RefusesIpcp(frames[i - 1]) && before + all[..i] == before + [frame] + frames[..i - 1];
    }
  }

  lemma NoRefusals(seen: seq<seq<byte>>, s: State)
    ensures RefusesInOrder(seen, [])
    ensures Tells(seen, s) ==> (OpensLcp(seen) <==> s.lcpLocalDone && s.lcpRemoteDone)
  {
  }

  lemma {:induction false} LoopKeepsOrder(t: seq<Event>, seen: seq<seq<byte>>, s: State, w: Wire, patience: nat)
    requires FlagsTraced(t, s) && Tells(seen, s)
    ensures |Loop(s, w, patience).wire.incoming| <= |w.incoming|
    ensures var n := Loop(s, w, patience);
            IpcpAfterLcp(t + LoopTrace(s, w, patience))
            <==> IpcpAfterLcp(t) && RefusesInOrder(seen, Answered(Consumed(w, n), n))
    decreases |w.incoming|
  {
    hide TakeTurn, TurnEvents, Sessions.Frames, Tells, FlagsTraced, IpcpAfterLcp, RefusesInOrder, RefusesIpcp, OpensLcp;
    LoopConsumes(s, w, patience);
    NoRefusals(seen, s);
    var n := Loop(s, w, patience);
    if patience == 0 || w.incoming == [] {
      assert t + [] == t;
      assert Consumed(w, n) == [];
      return;
    } else {
      var frame, rest := w.incoming[0], w.incoming[1..];
      NoRefusals(seen + [frame], s);
      var turn := TakeTurn(s, frame, w.capacity);
      var w' := AfterWriting(w.(incoming := rest), turn.sent);
      var events := TurnEvents(s, frame, w.capacity);
      TurnKeepsOrder(t, s, frame, w.capacity);
      if turn.verdict.Continue? {
        TurnTells(seen, s, frame, w.capacity);
        LoopKeepsOrder(t + events, seen + [frame], turn.state, w', patience - 1);
        var later := LoopTrace(turn.state, w', patience - 1);
        assert t + (events + later) == (t + events) + later;
        assert Consumed(w, n) == [frame] + Consumed(w', n);
        LoopConsumes(turn.state, w', patience - 1);
        assert Answered([frame] + Consumed(w', n), n) == [frame] + Answered(Consumed(w', n), n);
        RefusalsSplit(seen, frame, Answered(Consumed(w', n), n));
      } else {
        assert t + (events + []) == t + events;
        assert Consumed(w, n) == [frame];
        RefusalsSplit(seen, frame, []);
        assert [frame] + [] == [frame];
      }
    }
  }

  /** For every run of Negotiate, whatever the peer sends: no IPCP request goes out before LCP is open exactly
      when, among the frames that were answered, none refuses IPCP before an acknowledgement of LCP and an
      acceptable LCP request have both been read. */
  lemma IpcpWaitsIffRefusalsWait(magic: Quad, w: Wire, patience: nat)
    ensures |Negotiation(NewState(magic), w, patience).wire.incoming| <= |w.incoming|
    ensures var n := Negotiation(NewState(magic), w, patience);
            IpcpAfterLcp(Trace(NewState(magic), w, patience)) <==> RefusesInOrder([], Answered(Consumed(w, n), n))
  {
    assert RefusesInOrder([], []);
    hide Loop, LoopTrace, Sessions.Frames, RenderOptions, RefusesInOrder;
    var s := NewState(magic);
    var opening := SendLCPRequest(s, w.capacity > 0);
    WritesOf(opening.sent);
    if opening.failure.None? {
      var t := [Sent(opening.sent[0])];
      var w' := AfterWriting(w, opening.sent);
      OrderGrows([], Sent(opening.sent[0]));
      AcksGrow([], Sent(opening.sent[0]));
      assert [] + t == t;
      assert Tells([], opening.state);
      LoopKeepsOrder(t, [], opening.state, w', patience);
      assert Consumed(w', Loop(opening.state, w', patience)) == Consumed(w, Loop(opening.state, w', patience));
    }
  }

  // --- How many requests are outstanding ---

  /** At every point at most one request per protocol is without an answer. */
  ghost predicate OneAtATime(t: seq<Event>) {
    forall k: nat :: k <= |t| ==> Outstanding(t[..k], PROTOCOL_LCP) <= 1 && Outstanding(t[..k], PROTOCOL_IPCP) <= 1
  }

  /** IPCP is asked for only once it has been started. */
  predicate AskedFor(t: seq<Event>, s: State) {
    && Outstanding(t, PROTOCOL_LCP) <= 1
    && Outstanding(t, PROTOCOL_IPCP) <= if s.ipcpRequestSent then 1 else 0
  }

  lemma CountsGrow(t: seq<Event>, e: Event)
    requires OneAtATime(t)
    ensures forall protocol: uint16 ::
              Outstanding(t + [e], protocol) == Counted(Outstanding(t, protocol), e, protocol)
    ensures Outstanding(t + [e], PROTOCOL_LCP) <= 1 && Outstanding(t + [e], PROTOCOL_IPCP) <= 1 ==> OneAtATime(t + [e])
  {
    LastEvent(t, e);
    forall k: nat | k <= |t|
      ensures Outstanding((t + [e])[..k], PROTOCOL_LCP) <= 1 && Outstanding((t + [e])[..k], PROTOCOL_IPCP) <= 1
    {
      assert (t + [e])[..k] == t[..k];
    }
    assert (t + [e])[..|t| + 1] == t + [e];
  }

  /** Handling one packet asks at most once, and only in answer to a response. */
  predicate AsksInAnswer(s: State, p: Packet, h: Handled) {
    && |h.sent| <= 1
    && (h.sent != [] && h.sent[0].code == CONFIGURE_REQUEST ==>
          && h.sent[0].protocol == p.protocol && IsResponse(p)
          && (p.protocol == PROTOCOL_IPCP ==> h.state.ipcpRequestSent))
    && (s.ipcpRequestSent ==> h.state.ipcpRequestSent)
  }

  lemma LcpAsksInAnswer(s: State, p: Packet, writable: bool)
    requires p.protocol == PROTOCOL_LCP
    ensures AsksInAnswer(s, p, LcpStep(s, p, writable))
  {
    hide ParseOptions, RenderOptions, Rejected, Accepted, UndisputedOptions;
  }

  lemma IpcpAsksInAnswer(s: State, p: Packet, writable: bool)
    requires p.protocol == PROTOCOL_IPCP
    ensures AsksInAnswer(s, p, IpcpStep(s, p, writable))
  {
    hide ParseOptions, RenderOptions, IPCPOptions, Adopt, ReadPeerAddress, DropRejected;
  }

  lemma HandlingAsksOnce(t: seq<Event>, s: State, p: Packet, h: Handled)
    requires OneAtATime(t) && AskedFor(t, s) && AsksInAnswer(s, p, h)
    ensures var t' := t + [Received(p)] + Writes(h.sent);
            OneAtATime(t') && AskedFor(t', h.state)
  {
    hide OneAtATime, Outstanding;
    var t1 := t + [Received(p)];
    CountsGrow(t, Received(p));
    WritesOf(h.sent);
    if h.sent == [] {
      assert t1 + [] == t1;
    } else {
      CountsGrow(t1, Sent(h.sent[0]));
    }
  }

  lemma StartingAsksOnce(t: seq<Event>, h: Handled, capacity: nat)
    requires OneAtATime(t) && AskedFor(t, h.state) && |h.sent| <= capacity
    ensures |h.sent| <= |AfterHandling(h, capacity).sent|
    ensures var turn := AfterHandling(h, capacity);
            var t' := t + Writes(turn.sent[|h.sent|..]);
            turn.sent[..|h.sent|] == h.sent && OneAtATime(t') && AskedFor(t', turn.state)
  {
    hide OneAtATime, Outstanding, RenderOptions, IPCPOptions;
    var turn := AfterHandling(h, capacity);
    var started := turn.sent[|h.sent|..];
    WritesOf(started);
    if started == [] {
      assert t + [] == t;
    } else {
      CountsGrow(t, Sent(started[0]));
    }
  }

  lemma TurnAsksOnce(t: seq<Event>, s: State, frame: seq<byte>, capacity: nat)
    requires OneAtATime(t) && AskedFor(t, s)
    ensures var t' := t + TurnEvents(s, frame, capacity);
            OneAtATime(t') && AskedFor(t', TakeTurn(s, frame, capacity).state)
  {
    hide Decode, LcpStep, IpcpStep, AfterHandling, OneAtATime, AsksInAnswer, Outstanding, AskedFor;
    if Decode(frame).Err? {
      assert t + [] == t;
    } else {
      var p := Decode(frame).value;
      if p.protocol == PROTOCOL_LCP {
        LcpAsksInAnswer(s, p, capacity > 0);
        StepAsksOnce(t, s, p, LcpStep(s, p, capacity > 0), capacity);
      } else if p.protocol == PROTOCOL_IPCP {
        IpcpAsksInAnswer(s, p, capacity > 0);
        StepAsksOnce(t, s, p, IpcpStep(s, p, capacity > 0), capacity);
      } else {
        ForeignAsksNothing(t, s, p);
        assert t + ([Received(p)] + []) == t + [Received(p)];
      }
    }
  }

  lemma ForeignAsksNothing(t: seq<Event>, s: State, p: Packet)
    requires OneAtATime(t) && AskedFor(t, s) && p.protocol != PROTOCOL_LCP && p.protocol != PROTOCOL_IPCP
    ensures OneAtATime(t + [Received(p)]) && AskedFor(t + [Received(p)], s)
  {
    hide OneAtATime, Outstanding;
    CountsGrow(t, Received(p));
  }

  lemma StepAsksOnce(t: seq<Event>, s: State, p: Packet, h: Handled, capacity: nat)
    requires OneAtATime(t) && AskedFor(t, s) && AsksInAnswer(s, p, h) && |h.sent| <= capacity
    ensures var turn := AfterHandling(h, capacity);
            var t' := t + ([Received(p)] + Writes(turn.sent));
            OneAtATime(t') && AskedFor(t', turn.state)
  {
    hide AfterHandling, OneAtATime, Outstanding, AskedFor, AsksInAnswer;
    HandlingAsksOnce(t, s, p, h);
    var t1 := t + [Received(p)] + Writes(h.sent);
    StartingAsksOnce(t1, h, capacity);
    var turn := AfterHandling(h, capacity);
    WritesAppend(h.sent, turn.sent[|h.sent|..]);
    assert turn.sent == h.sent + turn.sent[|h.sent|..];
    assert t1 + Writes(turn.sent[|h.sent|..]) == t + ([Received(p)] + Writes(turn.sent));
  }

  lemma {:induction false} LoopAsksOnce(t: seq<Event>, s: State, w: Wire, patience: nat)
    requires OneAtATime(t) && AskedFor(t, s)
    ensures OneAtATime(t + LoopTrace(s, w, patience))
    decreases |w.incoming|
  {
    hide TakeTurn, TurnEvents, Sessions.Frames, OneAtATime, AskedFor;
    if patience == 0 || w.incoming == [] {
      assert t + [] == t;
    } else {
      var turn := TakeTurn(s, w.incoming[0], w.capacity);
      var w' := AfterWriting(w.(incoming := w.incoming[1..]), turn.sent);
      var events := TurnEvents(s, w.incoming[0], w.capacity);
      TurnAsksOnce(t, s, w.incoming[0], w.capacity);
      if turn.verdict.Continue? {
        LoopAsksOnce(t + events, turn.state, w', patience - 1);
        assert t + (events + LoopTrace(turn.state, w', patience - 1))
               == (t + events) + LoopTrace(turn.state, w', patience - 1);
      } else {
        assert t + (events + []) == t + events;
      }
    }
  }

  /** From one request to the next with no response between them, the first one stays unanswered. */
  lemma {:induction false} UnansweredStays(t: seq<Event>, protocol: uint16, i: nat, j: nat)
    requires i < j <= |t| && SendsRequest(t[i], protocol)
    requires forall k :: i < k < j ==> !ReceivesResponse(t[k], protocol)
    ensures Outstanding(t[..j], protocol) >= 1
    decreases j
  {
    assert t[..j][..j - 1] == t[..j - 1] && t[..j][j - 1] == t[j - 1];
    if j > i + 1 {
      UnansweredStays(t, protocol, i, j - 1);
    }
  }

  /** Between any two requests a response has come in. */
  ghost predicate AnsweredBetween(t: seq<Event>, protocol: uint16) {
    forall i, j :: 0 <= i < j < |t| && SendsRequest(t[i], protocol) && SendsRequest(t[j], protocol) ==>
      exists k :: i < k < j && ReceivesResponse(t[k], protocol)
  }

  lemma NeverTwoMeansAnswered(t: seq<Event>, protocol: uint16)
    requires forall k: nat :: k <= |t| ==> Outstanding(t[..k], protocol) <= 1
    ensures AnsweredBetween(t, protocol)
  {
    forall i, j | 0 <= i < j < |t| && SendsRequest(t[i], protocol) && SendsRequest(t[j], protocol)
      ensures exists k :: i < k < j && ReceivesResponse(t[k], protocol)
    {
      assert t[..j + 1][..j] == t[..j] && t[..j + 1][j] == t[j];
      assert Outstanding(t[..j], protocol) == 0;
      if forall k :: i < k < j ==> !ReceivesResponse(t[k], protocol) {
        UnansweredStays(t, protocol, i, j);
        assert false;
      }
    }
  }

  /** For every run of Negotiate, whatever the peer sends: at no point is more than one LCP request, or more
      than one IPCP request, without an answer, so that between any two of a protocol a response to the
      protocol has come in. */
  lemma OneRequestAtATime(magic: Quad, w: Wire, patience: nat)
    ensures OneAtATime(Trace(NewState(magic), w, patience))
    ensures AnsweredBetween(Trace(NewState(magic), w, patience), PROTOCOL_LCP)
    ensures AnsweredBetween(Trace(NewState(magic), w, patience), PROTOCOL_IPCP)
  {
    RunAsksOnce(magic, w, patience);
    NeverTwoMeansAnswered(Trace(NewState(magic), w, patience), PROTOCOL_LCP);
    NeverTwoMeansAnswered(Trace(NewState(magic), w, patience), PROTOCOL_IPCP);
  }

  lemma RunAsksOnce(magic: Quad, w: Wire, patience: nat)
    ensures OneAtATime(Trace(NewState(magic), w, patience))
  {
    hide Loop, LoopTrace, Sessions.Frames, RenderOptions;
    var s := NewState(magic);
    var opening := SendLCPRequest(s, w.capacity > 0);
    WritesOf(opening.sent);
    if opening.failure.None? {
      var t := [Sent(opening.sent[0])];
      assert [] + t == t;
      CountsGrow([], Sent(opening.sent[0]));
      LoopAsksOnce(t, opening.state, AfterWriting(w, opening.sent), patience);
    }
  }
}
