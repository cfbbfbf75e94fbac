/** Where negotiations lead: with a well-behaved peer to the addresses it suggested last, with a peer that
    refuses for ever nowhere. */
module NegotiationOutcomes {
  import opened Bytes
  import opened LinkOptions
  import opened NegotiationLiveness
  import opened NegotiationSafety
  import R = NegotiationReplies
  import opened Packets
  import opened Sessions

  // --- A peer that refuses for ever ---

  /** A Nak or a Reject of LCP or IPCP. */
  predicate Refusal(frame: seq<byte>) {
    && Decode(frame).Ok?
    && (Decode(frame).value.protocol == PROTOCOL_LCP || Decode(frame).value.protocol == PROTOCOL_IPCP)
    && (Decode(frame).value.code == CONFIGURE_NAK || Decode(frame).value.code == CONFIGURE_REJECT)
  }

  /** A refusal ends the negotiation exactly if its options cannot be read, it suggests an address that is not
      of four bytes, or it rejects the address. */
  lemma RefusalContinuesIffBenign(s: State, frame: seq<byte>, capacity: nat)
    requires !s.ipcpLocalDone && Refusal(frame) && capacity >= 2
    ensures var turn := TakeTurn(s, frame, capacity);
            && (turn.verdict.Continue? <==> Benign(frame))
            && !turn.verdict.Done? && turn.verdict != Fail(ReadFailed)
            && !turn.state.ipcpLocalDone && |turn.sent| <= 2
  {
    hide Decode, ParseOptions, RenderOptions, UndisputedOptions, IPCPOptions, AfterHandling;
    hide AddressesFit, Adopt, DropRejected, Mentions;
    var p := Decode(frame).value;
    if ParseOptions(p.data).Ok? {
      FittingAddressesAreAdopted(ParseOptions(p.data).value, s.requested);
      UnmentionedAddressIsKept(ParseOptions(p.data).value, s.requested);
    }
    var h := if p.protocol == PROTOCOL_LCP then LcpStep(s, p, true) else IpcpStep(s, p, true);
    assert h.failure.None? <==> BenignPacket(p);
    assert h.failure != Some(ReadFailed) && !h.state.ipcpLocalDone && |h.sent| <= 1;
    AfterARefusal(h, capacity);
  }

  lemma AfterARefusal(h: Handled, capacity: nat)
    requires !h.state.ipcpLocalDone && |h.sent| <= 1 && capacity >= 2 && h.failure != Some(ReadFailed)
    ensures var turn := AfterHandling(h, capacity);
            && (turn.verdict.Continue? <==> h.failure.None?)
            && !turn.verdict.Done? && turn.verdict != Fail(ReadFailed)
            && !turn.state.ipcpLocalDone && |turn.sent| <= 2
  {
    hide RenderOptions, IPCPOptions;
  }

  lemma {:induction false} RefusalsKeepItBusy(s: State, w: Wire, patience: nat)
    requires !s.ipcpLocalDone && forall i :: 0 <= i < |w.incoming| ==> Refusal(w.incoming[i])
    requires w.capacity >= 2 * |w.incoming| && patience > |w.incoming|
    ensures Loop(s, w, patience).result == Err(ReadFailed)
            <==> forall i :: 0 <= i < |w.incoming| ==> Benign(w.incoming[i])
    ensures Loop(s, w, patience).result.Err?
    ensures Loop(s, w, patience).result == Err(ReadFailed) ==> Loop(s, w, patience).wire.incoming == []
    decreases |w.incoming|
  {
    hide TakeTurn, Refusal, Benign, Sessions.Frames;
    if w.incoming != [] {
      var turn := TakeTurn(s, w.incoming[0], w.capacity);
      var w' := AfterWriting(w.(incoming := w.incoming[1..]), turn.sent);
      RefusalContinuesIffBenign(s, w.incoming[0], w.capacity);
      assert w.incoming == [w.incoming[0]] + w'.incoming;
      if turn.verdict.Continue? {
        RefusalsKeepItBusy(turn.state, w', patience - 1);
      }
    }
  }

  /** However many refusals of LCP or IPCP, in whatever order: Negotiate never succeeds on them, and it reads
      them all and waits for the next frame exactly if none of them is one that ends it. */
  lemma RefusedForEver(magic: Quad, w: Wire, patience: nat)
    requires forall i :: 0 <= i < |w.incoming| ==> Refusal(w.incoming[i])
    requires w.capacity >= 2 * |w.incoming| + 1 && patience > |w.incoming|
    ensures var n := Negotiation(NewState(magic), w, patience);
            && n.result.Err? && (n.result == Err(ReadFailed) ==> n.wire.incoming == [])
            && (n.result == Err(ReadFailed) <==> forall i :: 0 <= i < |w.incoming| ==> Benign(w.incoming[i]))
  {
    hide Loop, Refusal, Benign, Sessions.Frames;
    var opening := SendLCPRequest(NewState(magic), true);
    RefusalsKeepItBusy(opening.state, AfterWriting(w, opening.sent), patience);
  }

  /** A peer that refuses the two LCP options by turns, the MRU first. */
  function Disputed(magic: Quad, turn: nat): LinkOption {
    if turn % 2 == 0 then MruOption(DEFAULT_MRU) else MagicNumberOption(magic)
  }

  function RejectionOf(option: LinkOption): seq<byte> {
    Encode(Packet(PROTOCOL_LCP, CONFIGURE_REJECT, 1, RenderOptions([option])))
  }

  function Alternating(magic: Quad, turns: nat): (frames: seq<seq<byte>>)
    ensures |frames| == turns
  {
    if turns == 0 then [] else Alternating(magic, turns - 1) + [RejectionOf(Disputed(magic, turns - 1))]
  }

  lemma RejectionIsRefusal(magic: Quad, turn: nat)
    ensures var option := Disputed(magic, turn);
            var p := Packet(PROTOCOL_LCP, CONFIGURE_REJECT, 1, RenderOptions([option]));
            && Decode(RejectionOf(option)) == Ok(p) && ParseOptions(p.data) == Ok([option])
            && Refusal(RejectionOf(option))
  {
    hide ParseOptions, Decode, Encode;
    var option := Disputed(magic, turn);
    ParseInvertsRender([option]);
    RenderSize([option]);
    assert [option][1..] == [];
    RoundTrip(Packet(PROTOCOL_LCP, CONFIGURE_REJECT, 1, RenderOptions([option])));
  }

  /** One such refusal: the session asks again with the other option alone. */
  lemma RejectionLeavesTheOther(s: State, turn: nat)
    requires !s.lcpLocalDone && !s.ipcpLocalDone
    ensures var t := TakeTurn(s, RejectionOf(Disputed(s.magic, turn)), 2);
            && t.verdict.Continue? && !t.state.lcpLocalDone && !t.state.ipcpLocalDone
            && t.state.magic == s.magic && |t.sent| == 1
            && IsRequestPacket(t.sent[0], PROTOCOL_LCP)
            && t.sent[0].data == RenderOptions([Disputed(s.magic, turn + 1)])
  {
    hide Decode, RenderOptions, ParseOptions, RejectionOf, UndisputedOptions, Disputed, Refusal;
    RejectionIsRefusal(s.magic, turn);
    OneOptionIsLeft(s.magic, turn);
  }

  /** Each refusal is answered by one request with exactly the option that the next turn will refuse, which
      is also the one that the turn before refused: the requests never settle. */
  lemma {:induction false} AlternatingNeverSettles(s: State, turns: nat)
    requires !s.lcpLocalDone && !s.ipcpLocalDone && turns > 0
    ensures var turn := TurnsOver(s, Alternating(s.magic, turns));
            && turn.verdict.Continue? && !turn.state.lcpLocalDone && !turn.state.ipcpLocalDone
            && turn.state.magic == s.magic && |turn.sent| == 1
            && IsRequestPacket(turn.sent[0], PROTOCOL_LCP)
            && turn.sent[0].data == RenderOptions([Disputed(s.magic, turns)])
  {
    hide TakeTurn, RenderOptions, RejectionOf, Disputed;
    var frames := Alternating(s.magic, turns);
    assert frames[..turns - 1] == Alternating(s.magic, turns - 1);
    assert frames[turns - 1] == RejectionOf(Disputed(s.magic, turns - 1));
    if turns > 1 {
      AlternatingNeverSettles(s, turns - 1);
    }
    RejectionLeavesTheOther(TurnsOver(s, frames[..turns - 1]).state, turns - 1);
  }

  lemma OneOptionIsLeft(magic: Quad, turn: nat)
    ensures UndisputedOptions(magic, [Disputed(magic, turn)]) == [Disputed(magic, turn + 1)]
  {
    var disputed := [Disputed(magic, turn)];
    assert disputed[0].kind == if turn % 2 == 0 then LCP_MRU else LCP_MAGIC_NUMBER;
    assert Mentions(disputed, disputed[0].kind);
    assert (turn + 1) % 2 == 1 - turn % 2;
  }

  // --- A well-behaved peer: its answers are in turn ---

  /** The packets exchanged while the frames are consumed. */
  function TraceOver(s: State, frames: seq<seq<byte>>): seq<Event> {
    if frames == [] then []
    else
      var early := frames[..|frames| - 1];
      var before := TurnsOver(s, early);
      TraceOver(s, early)
      + if before.verdict.Continue? then TurnEvents(before.state, frames[|frames| - 1], 2) else []
  }

  /** Everything exchanged in the closed system so far. */
  function Exchanged(magic: Quad, a: System): seq<Event> {
    var opening := SendLCPRequest(NewState(magic), true);
    Writes(opening.sent) + TraceOver(opening.state, a.consumed)
  }

  function RequestsOf(protocol: uint16): Gauge {
    if protocol == PROTOCOL_LCP then LcpRequests else IpcpRequests
  }

  function ResponsesOf(protocol: uint16): Gauge {
    if protocol == PROTOCOL_LCP then LcpResponses else IpcpResponses
  }

  predicate IsAck(frame: seq<byte>, protocol: uint16) {
    Decode(frame).Ok? && Decode(frame).value.protocol == protocol && Decode(frame).value.code == CONFIGURE_ACK
  }

  /** A request on its way, and an acknowledgement on its way back, carry the options of the latest request. */
  ghost predicate Echoes(a: System, t: seq<Event>, protocol: uint16) {
    && (forall f :: f in a.toPeer && IsRequest(f, protocol) ==>
          LatestRequest(t, protocol) == Some(Decode(f).value.data))
    && (forall f :: f in a.toClient && IsAck(f, protocol) ==>
          LatestRequest(t, protocol) == Some(Decode(f).value.data))
  }

  ghost predicate Joined(magic: Quad, a: System) {
    var t := Exchanged(magic, a);
    && Follows(magic, a) && Inv(a) && Conforming(t)
    && (a.status.Running? ==>
          Linked(t, a.session) && Echoes(a, t, PROTOCOL_LCP) && Echoes(a, t, PROTOCOL_IPCP))
  }

  lemma LatestGrows(t: seq<Event>, e: Event, protocol: uint16)
    ensures LatestRequest(t + [e], protocol)
            == if SendsRequest(e, protocol) then Some(e.packet.data) else LatestRequest(t, protocol)
  {
    LastEvent(t, e);
  }

  lemma {:induction false} LatestAfterWrites(t: seq<Event>, sent: seq<Packet>, protocol: uint16)
    requires protocol == PROTOCOL_LCP || protocol == PROTOCOL_IPCP
    ensures var total := PacketTotal(RequestsOf(protocol), sent);
            && (total == 0 ==> LatestRequest(t + Writes(sent), protocol) == LatestRequest(t, protocol))
            && (total == 1 ==> forall i :: 0 <= i < |sent| && IsRequestPacket(sent[i], protocol) ==>
                                 LatestRequest(t + Writes(sent), protocol) == Some(sent[i].data))
            && (total == 0 ==> forall i :: 0 <= i < |sent| ==> !IsRequestPacket(sent[i], protocol))
    decreases |sent|
  {
    if sent == [] {
      assert t + [] == t;
    } else {
      var first, rest := Sent(sent[0]), sent[1..];
      LatestGrows(t, first, protocol);
      LatestAfterWrites(t + [first], rest, protocol);
      assert t + ([first] + Writes(rest)) == (t + [first]) + Writes(rest);
      assert forall i :: 1 <= i < |sent| ==> sent[i] == rest[i - 1];
    }
  }

  lemma ConformingGrows(t: seq<Event>, e: Event)
    requires Conforming(t) && AnswersInTurn(t + [e], |t|)
    ensures Conforming(t + [e])
  {
    forall k: nat | k < |t|
      ensures AnswersInTurn(t + [e], k)
    {
      assert AnswersInTurn(t, k);
      assert (t + [e])[..k] == t[..k] && (t + [e])[k] == t[k];
    }
  }

  lemma {:induction false} WritingConforms(t: seq<Event>, sent: seq<Packet>)
    requires Conforming(t)
    ensures Conforming(t + Writes(sent))
    decreases |sent|
  {
    if sent == [] {
      assert t + [] == t;
    } else {
      var first := Sent(sent[0]);
      assert (t + [first])[|t|] == first;
      ConformingGrows(t, first);
      WritingConforms(t + [first], sent[1..]);
      assert t + ([first] + Writes(sent[1..])) == (t + [first]) + Writes(sent[1..]);
    }
  }

  /** What the session is handed answers a request of its own, and repeats it if it acknowledges. */
  lemma HandedInTurn(magic: Quad, a: System)
    requires Joined(magic, a) && a.status.Running? && a.toClient != [] && Decode(a.toClient[0]).Ok?
    ensures AnswersInTurn(Exchanged(magic, a) + [Received(Decode(a.toClient[0]).value)], |Exchanged(magic, a)|)
  {
    hide Decode, Inv, Conforming, Orderly, AddressesLinked, Exchanged;
    var t := Exchanged(magic, a);
    var p := Decode(a.toClient[0]).value;
    FrameIsReady(a);
    LastEvent(t, Received(p));
    assert a.toClient[0] in a.toClient;
    assert p.code == CONFIGURE_ACK ==> IsAck(a.toClient[0], p.protocol);
  }

  lemma ExchangedGrows(magic: Quad, a: System)
    requires Follows(magic, a) && a.status.Running? && a.toClient != []
    ensures Exchanged(magic, After(a, ClientReads))
            == Exchanged(magic, a) + TurnEvents(a.session, a.toClient[0], 2)
  {
    hide TakeTurn, TurnEvents, Sessions.Frames;
    var b := After(a, ClientReads);
    assert b.consumed[..|a.consumed|] == a.consumed;
  }

  /** A turn sends at most one request per protocol, and then nothing else of it is on its way. */
  lemma ReadingEchoes(a: System, t: seq<Event>, protocol: uint16)
    requires Inv(a) && Enabled(a, ClientReads) && Echoes(a, t, protocol)
    requires protocol == PROTOCOL_LCP || protocol == PROTOCOL_IPCP
    ensures Echoes(After(a, ClientReads), t + TurnEvents(a.session, a.toClient[0], 2), protocol)
  {
    hide Decode, Encode, TakeTurn, Sessions.Frames, PacketReading, LatestRequest, PeerRequests, Queues;
    var b := After(a, ClientReads);
    var frame := a.toClient[0];
    var sent := TakeTurn(a.session, frame, 2).sent;
    var out := Sessions.Frames(sent);
    var g := RequestsOf(protocol);
    ClientReadsKeeps(a);
    SentFramesTotal(a.session, frame, g);
    FramesSize(sent);
    TotalAppends(g, a.toPeer, out);
    EventsOfTurn(t, a.session, frame, protocol);
    var t' := t + TurnEvents(a.session, frame, 2);
    assert forall f :: f in b.toClient ==> f in a.toClient;
    if PacketTotal(g, sent) > 0 {
      NothingElseIsOnItsWay(a, b, sent, protocol);
    }
    forall f | f in b.toPeer && IsRequest(f, protocol)
      ensures LatestRequest(t', protocol) == Some(Decode(f).value.data)
    {
      if f in out {
        var i :| 0 <= i < |out| && out[i] == f;
        assert f == Encode(sent[i]) && Decode(f) == Ok(sent[i]);
      } else {
        assert f in a.toPeer;
      }
    }
  }

  lemma NothingElseIsOnItsWay(a: System, b: System, sent: seq<Packet>, protocol: uint16)
    requires Tokens(b) && protocol in {PROTOCOL_LCP, PROTOCOL_IPCP}
    requires Total(RequestsOf(protocol), b.toPeer)
             == Total(RequestsOf(protocol), a.toPeer) + PacketTotal(RequestsOf(protocol), sent)
    requires PacketTotal(RequestsOf(protocol), sent) > 0
    ensures PacketTotal(RequestsOf(protocol), sent) == 1
    ensures forall f :: f in a.toPeer ==> !IsRequest(f, protocol)
    ensures forall f :: f in b.toClient ==> !IsAck(f, protocol)
  {
    hide Decode, PacketTotal, Total;
    forall f | f in a.toPeer
      ensures !IsRequest(f, protocol)
    {
      var i :| 0 <= i < |a.toPeer| && a.toPeer[i] == f;
      TotalWitness(RequestsOf(protocol), a.toPeer, i);
    }
    forall f | f in b.toClient
      ensures !IsAck(f, protocol)
    {
      var i :| 0 <= i < |b.toClient| && b.toClient[i] == f;
      TotalWitness(ResponsesOf(protocol), b.toClient, i);
    }
  }

  /** What a turn does to the latest request. */
  lemma EventsOfTurn(t: seq<Event>, s: State, frame: seq<byte>, protocol: uint16)
    requires protocol == PROTOCOL_LCP || protocol == PROTOCOL_IPCP
    ensures var sent := TakeTurn(s, frame, 2).sent;
            var t' := t + TurnEvents(s, frame, 2);
            var total := PacketTotal(RequestsOf(protocol), sent);
            && (total == 0 ==> LatestRequest(t', protocol) == LatestRequest(t, protocol))
            && (total == 0 ==> forall i :: 0 <= i < |sent| ==> !IsRequestPacket(sent[i], protocol))
            && (total == 1 ==> forall i :: 0 <= i < |sent| && IsRequestPacket(sent[i], protocol) ==>
                                 LatestRequest(t', protocol) == Some(sent[i].data))
  {
    hide Decode, LcpStep, IpcpStep, AfterHandling, PacketTotal, LatestRequest;
    var sent := TakeTurn(s, frame, 2).sent;
    if Decode(frame).Ok? {
      var e := Received(Decode(frame).value);
      LatestGrows(t, e, protocol);
      LatestAfterWrites(t + [e], sent, protocol);
      assert t + ([e] + Writes(sent)) == (t + [e]) + Writes(sent);
    } else {
      assert sent == [];
      LatestAfterWrites(t, sent, protocol);
      assert Writes(sent) == [];
    }
  }

  lemma ReadingKeepsJoined(magic: Quad, a: System)
    requires Joined(magic, a) && Enabled(a, ClientReads)
    ensures Joined(magic, After(a, ClientReads))
  {
    hide Decode, TakeTurn, Sessions.Frames, Inv, Conforming, Linked, Echoes, Exchanged;
    var b := After(a, ClientReads);
    var t := Exchanged(magic, a);
    var frame := a.toClient[0];
    var turn := TakeTurn(a.session, frame, 2);
    ClientReadsKeeps(a);
    ExchangedGrows(magic, a);
    assert Follows(magic, b) by {
      assert b.consumed[..|a.consumed|] == a.consumed;
    }
    if Decode(frame).Ok? {
      var p := Decode(frame).value;
      HandedInTurn(magic, a);
      ConformingGrows(t, Received(p));
      WritingConforms(t + [Received(p)], turn.sent);
      assert t + ([Received(p)] + Writes(turn.sent)) == (t + [Received(p)]) + Writes(turn.sent);
    } else {
      assert t + [] == t;
    }
    TurnKeepsLink(t, a.session, frame, 2);
    ReadingEchoes(a, t, PROTOCOL_LCP);
    ReadingEchoes(a, t, PROTOCOL_IPCP);
  }

  lemma PeerKeepsEchoes(a: System, m: Move, t: seq<Event>, protocol: uint16)
    requires Enabled(a, m) && !m.ClientReads? && Echoes(a, t, protocol)
    requires protocol == PROTOCOL_LCP || protocol == PROTOCOL_IPCP
    ensures Echoes(After(a, m), t, protocol)
  {
    hide Decode, Benign, ParseOptions;
    var b := After(a, m);
    assert forall f :: f in b.toPeer ==> f in a.toPeer;
    if m.PeerAcknowledges? && IsAck(m.response, protocol) {
      assert a.toPeer[0] in a.toPeer && IsRequest(a.toPeer[0], protocol);
    }
  }

  lemma PeerKeepsJoined(magic: Quad, a: System, m: Move)
    requires Joined(magic, a) && Enabled(a, m) && !m.ClientReads?
    ensures Joined(magic, After(a, m))
  {
    hide Inv, Conforming, Linked, Echoes, Enabled, TurnsOver, TraceOver;
    MoveKeeps(a, m);
    if a.status.Running? {
      PeerKeepsEchoes(a, m, Exchanged(magic, a), PROTOCOL_LCP);
      PeerKeepsEchoes(a, m, Exchanged(magic, a), PROTOCOL_IPCP);
    }
  }

  lemma {:induction false} RunStaysJoined(magic: Quad, a: System, moves: seq<Move>)
    requires Joined(magic, a) && ValidRun(a, moves)
    ensures Joined(magic, Run(a, moves))
    decreases |moves|
  {
    hide Joined, Enabled, After;
    if moves != [] {
      if moves[0].ClientReads? {
        ReadingKeepsJoined(magic, a);
      } else {
        PeerKeepsJoined(magic, a, moves[0]);
      }
      RunStaysJoined(magic, After(a, moves[0]), moves[1..]);
    }
  }

  lemma StartIsJoined(magic: Quad, budget: nat)
    ensures Joined(magic, Start(magic, budget))
  {
    hide Decode, Encode, RenderOptions, Inv;
    var a := Start(magic, budget);
    var opening := SendLCPRequest(NewState(magic), true);
    var q := opening.sent[0];
    StartHolds(magic, budget);
    OpeningFits(magic);
    OpeningIsLinked(magic, q, opening.state);
    WritesOf(opening.sent);
    assert Exchanged(magic, a) == [Sent(q)];
    LatestGrows([], Sent(q), PROTOCOL_LCP);
    assert [] + [Sent(q)] == [Sent(q)];
    assert a.toPeer == [Encode(q)];
  }

  // --- The same exchange, as the trace of Negotiate ---

  lemma LoopTraceTurns(s: State, last: seq<byte>, rest: seq<seq<byte>>, w: Wire, patience: nat) returns (w': Wire)
    requires w.incoming == [last] + rest && w.capacity >= 2 && patience >= 1
    requires TakeTurn(s, last, 2).verdict.Continue?
    ensures w'.incoming == rest && w'.capacity >= w.capacity - 2
    ensures LoopTrace(s, w, patience)
            == TurnEvents(s, last, 2) + LoopTrace(TakeTurn(s, last, 2).state, w', patience - 1)
  {
    hide TakeTurn, Decode, Writes, Sessions.Frames;
    CapacityIsEnough(s, last, w.capacity);
    assert |TakeTurn(s, last, 2).sent| <= 2;
    assert w.incoming[0] == last && w.incoming[1..] == rest;
    w' := AfterWriting(w.(incoming := rest), TakeTurn(s, last, w.capacity).sent);
  }

  lemma {:induction false} LoopTraceGrows(
      s: State, frames: seq<seq<byte>>, rest: seq<seq<byte>>, w: Wire, patience: nat) returns (w': Wire)
    requires w.incoming == frames + rest && w.capacity >= 2 * |frames| && patience >= |frames|
    requires TurnsOver(s, frames).verdict.Continue?
    ensures w'.incoming == rest && w'.capacity >= w.capacity - 2 * |frames|
    ensures LoopTrace(s, w, patience)
            == TraceOver(s, frames) + LoopTrace(TurnsOver(s, frames).state, w', patience - |frames|)
    decreases |frames|
  {
    hide TakeTurn, TurnEvents, LoopTrace;
    if frames == [] {
      w' := w;
      assert w.incoming == rest;
      assert [] + LoopTrace(s, w, patience) == LoopTrace(s, w, patience);
    } else {
      var early, last := frames[..|frames| - 1], frames[|frames| - 1];
      assert frames + rest == early + ([last] + rest);
      var w1 := LoopTraceGrows(s, early, [last] + rest, w, patience);
      var mid := TurnsOver(s, early).state;
      w' := LoopTraceTurns(mid, last, rest, w1, patience - |early|);
      var later := LoopTrace(TakeTurn(mid, last, 2).state, w', patience - |frames|);
      assert TraceOver(s, early) + (TurnEvents(mid, last, 2) + later)
             == (TraceOver(s, early) + TurnEvents(mid, last, 2)) + later;
    }
  }

  lemma TraceIsExchanged(magic: Quad, budget: nat, moves: seq<Move>, w: Wire, patience: nat)
    requires ValidRun(Start(magic, budget), moves)
    requires var end := Run(Start(magic, budget), moves);
             && end.status.Succeeded? && w.incoming == end.consumed
             && w.capacity >= 2 * |end.consumed| + 1 && patience >= |end.consumed|
    ensures Trace(NewState(magic), w, patience) == Exchanged(magic, Run(Start(magic, budget), moves))
  {
    hide TakeTurn, Decode, Sessions.Frames, Enabled, After;
    var a := Start(magic, budget);
    var opening := SendLCPRequest(NewState(magic), true);
    RunFollows(magic, a, moves);
    var end := Run(a, moves);
    var frames := end.consumed;
    DoneComesLast(opening.state, frames, magic, a, moves);
    var early, last := frames[..|frames| - 1], frames[|frames| - 1];
    var mid := TurnsOver(opening.state, early).state;
    assert frames == early + [last];
    var w0 := AfterWriting(w, opening.sent);
    var w1 := LoopTraceGrows(opening.state, early, [last], w0, patience);
    CapacityIsEnough(mid, last, w1.capacity);
    assert w1.incoming[0] == last;
    assert TurnEvents(mid, last, 2) + [] == TurnEvents(mid, last, 2);
    assert LoopTrace(mid, w1, patience - |early|) == TurnEvents(mid, last, 2);
  }

  /** Safety and liveness together: in every run of the closed system the peer answers in turn, so the
      guarantee of NegotiationIsSafe holds of it without a hypothesis. Negotiate, run on the frames the
      session consumed, returns with LCP open both ways, with the peer's own request of each protocol
      acknowledged as it stood, and with the addresses of its last request: the peer's latest suggestions,
      with the rejected ones cleared. */
  lemma EverySuccessIsAgreed(magic: Quad, budget: nat, moves: seq<Move>, w: Wire, patience: nat)
    requires ValidRun(Start(magic, budget), moves)
    requires var end := Run(Start(magic, budget), moves);
             && end.status.Succeeded? && w.incoming == end.consumed
             && w.capacity >= 2 * |end.consumed| + 1 && patience >= |end.consumed|
    ensures var t := Trace(NewState(magic), w, patience);
            var result := Negotiation(NewState(magic), w, patience).result;
            && Conforming(t) && Orderly(t) && result.Ok? && Agreed(t, result.value)
            && R.Acknowledged(t, PROTOCOL_LCP) && R.Acknowledged(t, PROTOCOL_IPCP)
  {
    assert forall t, c: Config :: Agreed(t, c) ==> AckSent(t);
    hide Run, ValidRun, Start, Trace, Negotiation, Conforming, Orderly, Agreed, Exchanged;
    StartIsJoined(magic, budget);
    RunStaysJoined(magic, Start(magic, budget), moves);
    TraceIsExchanged(magic, budget, moves, w, patience);
    SuccessIsNegotiated(magic, budget, moves, w, patience);
    NegotiationIsSafe(magic, w, patience);
    R.OutcomesAreEarned(magic, w, patience);
    R.RepliesAreInTurn(magic, w, patience);
    R.AckSentIsAcknowledged(magic, Trace(NewState(magic), w, patience));
  }

  /** And at every point of every run, finished or not, what was exchanged so far is in turn and in order. */
  lemma EveryRunIsOrderly(magic: Quad, budget: nat, moves: seq<Move>)
    requires ValidRun(Start(magic, budget), moves)
    ensures var end := Run(Start(magic, budget), moves);
            && Conforming(Exchanged(magic, end))
            && (end.status.Running? ==> Orderly(Exchanged(magic, end)))
  {
    hide Run, ValidRun, Start, Conforming, Orderly, Exchanged;
    StartIsJoined(magic, budget);
    RunStaysJoined(magic, Start(magic, budget), moves);
  }
}
