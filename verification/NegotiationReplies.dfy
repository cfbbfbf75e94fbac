/** What the session writes, over every run of Negotiate and whatever the peer sends: each reply directly after what
    it replies to, each request under the next identifier, and the very bytes of the requests.
    internal/ppp/session.go and internal/ppp/ipcp.go. */
module NegotiationReplies {
  import opened Bytes
  import opened LinkOptions
  import opened NegotiationSafety
  import opened Packets
  import opened Replies
  import opened Sessions

  // --- Replies ---

  /** One packet answers another: under its protocol and its identifier, an acknowledgement with the same options, a
      rejection with just those that LCP cannot take, an echo with the magic number, or the end of a termination. */
  predicate Answers(magic: Quad, p: Packet, q: Packet) {
    && q.protocol == p.protocol && q.identifier == p.identifier
    && if q.code == CONFIGURE_ACK then p.code == CONFIGURE_REQUEST && q.data == p.data
       else if q.code == CONFIGURE_REJECT then
         && p.protocol == PROTOCOL_LCP && p.code == CONFIGURE_REQUEST && ParseOptions(p.data).Ok?
         && Rejected(ParseOptions(p.data).value) != []
         && ParseOptions(q.data) == Ok(Rejected(ParseOptions(p.data).value))
       else if q.code == ECHO_REPLY then p.protocol == PROTOCOL_LCP && p.code == ECHO_REQUEST && q.data == magic
       else q.code == TERMINATE_ACK && p.code == TERMINATE_REQUEST && q.data == []
  }

  /** What has to be answered: a request that can be read, an LCP echo, a termination. */
  predicate CallsForAnswer(p: Packet) {
    if p.protocol == PROTOCOL_LCP then
      (p.code == CONFIGURE_REQUEST && ParseOptions(p.data).Ok?) || p.code == ECHO_REQUEST || p.code == TERMINATE_REQUEST
    else
      p.protocol == PROTOCOL_IPCP
      && ((p.code == CONFIGURE_REQUEST && IsReadableRequest(p)) || p.code == TERMINATE_REQUEST)
  }

  predicate IsReply(e: Event) {
    e.Sent? && e.packet.code != CONFIGURE_REQUEST
  }

  /** Every reply directly follows what it answers. */
  predicate RepliesFollow(magic: Quad, t: seq<Event>) {
    forall k :: 0 <= k < |t| && IsReply(t[k]) ==>
      k > 0 && t[k - 1].Received? && Answers(magic, t[k - 1].packet, t[k].packet)
  }

  /** And everything that calls for an answer directly gets one. */
  predicate CallsAreAnswered(t: seq<Event>) {
    forall k :: 0 <= k < |t| && t[k].Received? && CallsForAnswer(t[k].packet) ==> k + 1 < |t| && IsReply(t[k + 1])
  }

  lemma RepliesJoin(magic: Quad, a: seq<Event>, b: seq<Event>)
    requires RepliesFollow(magic, a) && RepliesFollow(magic, b)
    ensures RepliesFollow(magic, a + b)
  {
    forall k | 0 <= k < |a + b| && IsReply((a + b)[k])
      ensures k > 0 && (a + b)[k - 1].Received? && Answers(magic, (a + b)[k - 1].packet, (a + b)[k].packet)
    {
      if k >= |a| {
        assert IsReply(b[k - |a|]);
      }
    }
  }

  lemma CallsJoin(a: seq<Event>, b: seq<Event>)
    requires CallsAreAnswered(a) && CallsAreAnswered(b)
    ensures CallsAreAnswered(a + b)
  {
    forall k | 0 <= k < |a + b| && (a + b)[k].Received? && CallsForAnswer((a + b)[k].packet)
      ensures k + 1 < |a + b| && IsReply((a + b)[k + 1])
    {
      if k < |a| {
        assert a[k] == (a + b)[k] && IsReply(a[k + 1]);
      } else {
        assert b[k - |a|] == (a + b)[k] && IsReply(b[k - |a| + 1]);
      }
    }
  }

  /** One packet handled: a reply to it if it calls for one, or else perhaps a request. */
  predicate RepliesTo(s: State, p: Packet, h: Handled, writable: bool) {
    && |h.sent| <= 1 && h.state.magic == s.magic
    && (h.sent != [] && h.sent[0].code != CONFIGURE_REQUEST ==> Answers(s.magic, p, h.sent[0]))
    && (writable && CallsForAnswer(p) ==> h.sent != [] && h.sent[0].code != CONFIGURE_REQUEST)
  }

  lemma LcpReplies(s: State, p: Packet, writable: bool)
    requires p.protocol == PROTOCOL_LCP
    ensures RepliesTo(s, p, LcpStep(s, p, writable), writable)
  {
    hide ParseOptions, RenderOptions, Rejected, Accepted, UndisputedOptions;
    if p.code == CONFIGURE_REQUEST && ParseOptions(p.data).Ok? {
      LcpRequestIsAnsweredOnce(s, p);
      NothingRejected(ParseOptions(p.data).value);
    }
  }

  lemma IpcpReplies(s: State, p: Packet, writable: bool)
    requires p.protocol == PROTOCOL_IPCP
    ensures RepliesTo(s, p, IpcpStep(s, p, writable), writable)
  {
    if p.code == CONFIGURE_REQUEST {
      IpcpAnswers(s, p, writable);
    } else {
      IpcpAsks(s, p, writable);
    }
    hide RepliesTo, IpcpStep;
  }

  lemma IpcpAnswers(s: State, p: Packet, writable: bool)
    requires p.protocol == PROTOCOL_IPCP && p.code == CONFIGURE_REQUEST
    ensures RepliesTo(s, p, IpcpStep(s, p, writable), writable)
  {
    hide ParseOptions, IsReadableRequest, AnswerIPCPRequest;
    IpcpRequestIsAcknowledged(s, p);
    AnswerShows(s, p, writable);
  }

  lemma IpcpAsks(s: State, p: Packet, writable: bool)
    requires p.protocol == PROTOCOL_IPCP && p.code != CONFIGURE_REQUEST
    ensures RepliesTo(s, p, IpcpStep(s, p, writable), writable)
  {
    hide ParseOptions, Adopt, DropRejected, SendIPCPRequest, Rejected;
    if ParseOptions(p.data).Ok? {
      AskingShows(s.(requested := Adopt(ParseOptions(p.data).value, s.requested).config), writable);
      AskingShows(s.(requested := DropRejected(ParseOptions(p.data).value, s.requested).requested), writable);
    }
  }

  /** What follows the reply in a turn is IPCP's first request, if anything. */
  lemma StartedIsARequest(h: Handled, capacity: nat)
    requires |h.sent| <= 1 && |h.sent| <= capacity
    ensures var turn := AfterHandling(h, capacity);
            && h.sent <= turn.sent && |turn.sent| <= |h.sent| + 1 && turn.state.magic == h.state.magic
            && (|turn.sent| > |h.sent| ==> turn.sent[|h.sent|].code == CONFIGURE_REQUEST)
  {
    hide RenderOptions, IPCPOptions;
  }

  lemma TurnReplies(s: State, frame: seq<byte>, capacity: nat)
    ensures TakeTurn(s, frame, capacity).state.magic == s.magic
    ensures RepliesFollow(s.magic, TurnEvents(s, frame, capacity))
    ensures capacity > 0 ==> CallsAreAnswered(TurnEvents(s, frame, capacity))
  {
    hide Decode, LcpStep, IpcpStep, AfterHandling, CallsForAnswer, Answers;
    if Decode(frame).Ok? {
      var p, turn := Decode(frame).value, TakeTurn(s, frame, capacity);
      WritesOf(turn.sent);
      if p.protocol == PROTOCOL_LCP || p.protocol == PROTOCOL_IPCP {
        var h := if p.protocol == PROTOCOL_LCP then LcpStep(s, p, capacity > 0) else IpcpStep(s, p, capacity > 0);
        if p.protocol == PROTOCOL_LCP {
          LcpReplies(s, p, capacity > 0);
        } else {
          IpcpReplies(s, p, capacity > 0);
        }
        StartedIsARequest(h, capacity);
      } else {
        assert !CallsForAnswer(p) by {
          ForeignCallsForNothing(p);
        }
      }
    }
  }

  lemma ForeignCallsForNothing(p: Packet)
    requires p.protocol != PROTOCOL_LCP && p.protocol != PROTOCOL_IPCP
    ensures !CallsForAnswer(p)
  {
  }

  lemma {:induction false} LoopReplies(s: State, w: Wire, patience: nat)
    ensures RepliesFollow(s.magic, LoopTrace(s, w, patience))
    ensures w.capacity > 2 * |w.incoming| ==> CallsAreAnswered(LoopTrace(s, w, patience))
    decreases |w.incoming|
  {
    hide TakeTurn, TurnEvents, Sessions.Frames, RepliesFollow, CallsAreAnswered;
    assert RepliesFollow(s.magic, []) && CallsAreAnswered([]) by {
      NothingToAnswer(s.magic);
    }
    if patience > 0 && w.incoming != [] {
      var frame := w.incoming[0];
      var turn := TakeTurn(s, frame, w.capacity);
      var w' := AfterWriting(w.(incoming := w.incoming[1..]), turn.sent);
      TurnReplies(s, frame, w.capacity);
      AtMostTwo(s, frame, w.capacity);
      if turn.verdict.Continue? {
        LoopReplies(turn.state, w', patience - 1);
        RepliesJoin(s.magic, TurnEvents(s, frame, w.capacity), LoopTrace(turn.state, w', patience - 1));
        if w.capacity > 2 * |w.incoming| {
          CallsJoin(TurnEvents(s, frame, w.capacity), LoopTrace(turn.state, w', patience - 1));
        }
      } else {
        assert TurnEvents(s, frame, w.capacity) + [] == TurnEvents(s, frame, w.capacity);
      }
    }
  }

  lemma NothingToAnswer(magic: Quad)
    ensures RepliesFollow(magic, []) && CallsAreAnswered([])
  {
  }

  lemma AtMostTwo(s: State, frame: seq<byte>, capacity: nat)
    ensures |TakeTurn(s, frame, capacity).sent| <= 2
  {
    hide Decode, ParseOptions, RenderOptions;
  }

  /** For every run, whatever the peer sends: whatever the session writes that is no request directly follows the
      packet it answers, under its identifier and with what belongs in it; and as long as the link takes what is
      written, everything that calls for an answer is answered before anything else is read. */
  lemma RepliesAreInTurn(magic: Quad, w: Wire, patience: nat)
    ensures RepliesFollow(magic, Trace(NewState(magic), w, patience))
    ensures w.capacity > 2 * |w.incoming| + 1 ==> CallsAreAnswered(Trace(NewState(magic), w, patience))
  {
    hide Loop, LoopTrace, Sessions.Frames, RenderOptions, Answers, CallsForAnswer;
    var s := NewState(magic);
    var opening := SendLCPRequest(s, w.capacity > 0);
    WritesOf(opening.sent);
    if opening.failure.None? {
      var w' := AfterWriting(w, opening.sent);
      LoopReplies(opening.state, w', patience);
      RepliesJoin(magic, Writes(opening.sent), LoopTrace(opening.state, w', patience));
      if w.capacity > 2 * |w.incoming| + 1 {
        CallsJoin(Writes(opening.sent), LoopTrace(opening.state, w', patience));
      }
    }
  }

  // --- Identifiers ---

  predicate IsRequestSent(e: Event) {
    e.Sent? && e.packet.code == CONFIGURE_REQUEST
  }

  /** How many requests have been written, of either protocol. */
  function Requests(t: seq<Event>): nat {
    if t == [] then 0 else Requests(t[..|t| - 1]) + if IsRequestSent(t[|t| - 1]) then 1 else 0
  }

  predicate HasNumber(e: Event, n: nat) {
    IsRequestSent(e) ==> e.packet.identifier == TruncateToByte(n)
  }

  /** Each request carries the next number, after those that came before the trace. */
  predicate Numbered(t: seq<Event>, before: nat) {
    t == []
    || (Numbered(t[..|t| - 1], before) && HasNumber(t[|t| - 1], before + Requests(t[..|t| - 1]) + 1))
  }

  lemma {:induction false} NumberedAt(t: seq<Event>, before: nat, k: nat)
    requires Numbered(t, before) && k < |t|
    ensures HasNumber(t[k], before + Requests(t[..k]) + 1)
  {
    if k < |t| - 1 {
      assert t[..|t| - 1][..k] == t[..k];
      NumberedAt(t[..|t| - 1], before, k);
    }
  }

  lemma {:induction false} RequestsAdd(a: seq<Event>, b: seq<Event>)
    ensures Requests(a + b) == Requests(a) + Requests(b)
  {
    if b == [] {
      assert a + b == a;
    } else {
      assert (a + b)[..|a + b| - 1] == a + b[..|b| - 1];
      RequestsAdd(a, b[..|b| - 1]);
    }
  }

  lemma {:induction false} NumbersJoin(a: seq<Event>, b: seq<Event>, before: nat)
    requires Numbered(a, before) && Numbered(b, before + Requests(a))
    ensures Numbered(a + b, before)
  {
    hide HasNumber;
    if b == [] {
      assert a + b == a;
    } else {
      var early := b[..|b| - 1];
      assert (a + b)[..|a + b| - 1] == a + early;
      NumbersJoin(a, early, before);
      RequestsAdd(a, early);
    }
  }

  function After(before: byte, q: Packet): byte {
    if q.code == CONFIGURE_REQUEST then q.identifier else before
  }

  predicate IsNext(before: byte, q: Packet) {
    q.code == CONFIGURE_REQUEST ==> q.identifier == TruncateToByte(before + 1)
  }

  /** Writing packets one after the other, each request under the next identifier. */
  predicate Counts(before: byte, sent: seq<Packet>, after: byte)
    decreases |sent|
  {
    if sent == [] then after == before
    else IsNext(before, sent[0]) && Counts(After(before, sent[0]), sent[1..], after)
  }

  lemma NextNumber(n: nat)
    ensures TruncateToByte(TruncateToByte(n) + 1) == TruncateToByte(n + 1)
  {
  }

  lemma {:induction false} CountedIsNumbered(before: nat, sent: seq<Packet>, after: byte)
    requires Counts(TruncateToByte(before), sent, after)
    ensures Numbered(Writes(sent), before) && after == TruncateToByte(before + Requests(Writes(sent)))
    decreases |sent|
  {
    hide TruncateToByte;
    if sent != [] {
      var e, rest := Sent(sent[0]), Writes(sent[1..]);
      NextNumber(before);
      assert [e][..0] == [];
      assert Requests([e]) == if IsRequestSent(e) then 1 else 0;
      CountedIsNumbered(before + Requests([e]), sent[1..], after);
      assert Numbered([e], before);
      hide Numbered;
      NumbersJoin([e], rest, before);
      RequestsAdd([e], rest);
    }
  }

  lemma TurnCounts(s: State, frame: seq<byte>, capacity: nat)
    ensures var turn := TakeTurn(s, frame, capacity);
            exists after: byte ::
              Counts(s.identifier, turn.sent, after) && (turn.verdict.Continue? ==> after == turn.state.identifier)
  {
    hide Decode, ParseOptions, RenderOptions, Adopt, ReadPeerAddress, DropRejected, IPCPOptions, UndisputedOptions;
    hide Rejected, Accepted, LcpStep, IpcpStep, AfterHandling;
    var turn := TakeTurn(s, frame, capacity);
    if Decode(frame).Ok? {
      var p := Decode(frame).value;
      if p.protocol == PROTOCOL_LCP {
        LcpCounts(s, p, capacity > 0);
        StartingCounts(s.identifier, LcpStep(s, p, capacity > 0), capacity);
      } else if p.protocol == PROTOCOL_IPCP {
        IpcpCounts(s, p, capacity > 0);
        StartingCounts(s.identifier, IpcpStep(s, p, capacity > 0), capacity);
      } else {
        assert Counts(s.identifier, turn.sent, s.identifier);
      }
    } else {
      assert Counts(s.identifier, turn.sent, s.identifier);
    }
  }

  /** One packet handled: at most one is written, and if it is a request it carries the next identifier. */
  predicate CountsOne(before: byte, h: Handled) {
    && |h.sent| <= 1
    && (h.sent != [] ==> IsNext(before, h.sent[0]))
    && (h.failure.None? ==> h.state.identifier == if h.sent == [] then before else After(before, h.sent[0]))
  }

  lemma LcpCounts(s: State, p: Packet, writable: bool)
    ensures CountsOne(s.identifier, LcpStep(s, p, writable))
  {
    hide ParseOptions, RenderOptions, UndisputedOptions, Rejected, Accepted;
  }

  lemma IpcpCounts(s: State, p: Packet, writable: bool)
    ensures CountsOne(s.identifier, IpcpStep(s, p, writable))
  {
    hide ParseOptions, Adopt, ReadPeerAddress, DropRejected, SendIPCPRequest;
    if ParseOptions(p.data).Ok? {
      AskingShows(s.(requested := Adopt(ParseOptions(p.data).value, s.requested).config), writable);
      AskingShows(s.(requested := DropRejected(ParseOptions(p.data).value, s.requested).requested), writable);
    }
  }

  lemma CountsOfTwo(before: byte, sent: seq<Packet>)
    requires |sent| <= 2 && (sent != [] ==> IsNext(before, sent[0]))
    requires |sent| == 2 ==> IsNext(After(before, sent[0]), sent[1])
    ensures Counts(before, sent, if sent == [] then before
                                 else if |sent| == 1 then After(before, sent[0])
                                 else After(After(before, sent[0]), sent[1]))
  {
    hide IsNext, After;
    if |sent| == 2 {
      var one, two := After(before, sent[0]), After(After(before, sent[0]), sent[1]);
      assert sent[1..] == [sent[1]] && [sent[1]][1..] == [];
      assert Counts(two, [], two);
      assert Counts(one, [sent[1]], two);
    } else if |sent| == 1 {
      assert sent[1..] == [];
      assert Counts(After(before, sent[0]), [], After(before, sent[0]));
    }
  }

  lemma StartingCounts(before: byte, h: Handled, capacity: nat)
    requires CountsOne(before, h) && |h.sent| <= capacity
    ensures var turn := AfterHandling(h, capacity);
            exists after: byte ::
              Counts(before, turn.sent, after) && (turn.verdict.Continue? ==> after == turn.state.identifier)
  {
    hide RenderOptions, IPCPOptions, Counts;
    CountsOfTwo(before, AfterHandling(h, capacity).sent);
  }

  lemma {:induction false} LoopNumbers(s: State, before: nat, w: Wire, patience: nat)
    requires s.identifier == TruncateToByte(before)
    ensures Numbered(LoopTrace(s, w, patience), before)
    decreases |w.incoming|
  {
    hide TakeTurn, Sessions.Frames, Decode, Counts;
    if patience > 0 && w.incoming != [] {
      var frame := w.incoming[0];
      var turn, events := TakeTurn(s, frame, w.capacity), TurnEvents(s, frame, w.capacity);
      var w' := AfterWriting(w.(incoming := w.incoming[1..]), turn.sent);
      TurnNumbers(s, before, frame, w.capacity);
      hide TurnEvents, Numbered;
      if turn.verdict.Continue? {
        LoopNumbers(turn.state, before + Requests(events), w', patience - 1);
        NumbersJoin(events, LoopTrace(turn.state, w', patience - 1), before);
      } else {
        assert events + [] == events;
      }
    }
  }

  lemma TurnNumbers(s: State, before: nat, frame: seq<byte>, capacity: nat)
    requires s.identifier == TruncateToByte(before)
    ensures var turn, events := TakeTurn(s, frame, capacity), TurnEvents(s, frame, capacity);
            && Numbered(events, before)
            && (turn.verdict.Continue? ==> turn.state.identifier == TruncateToByte(before + Requests(events)))
  {
    hide Counts, Decode, TruncateToByte, LcpStep, IpcpStep, AfterHandling;
    var turn := TakeTurn(s, frame, capacity);
    TurnCounts(s, frame, capacity);
    var after: byte :| Counts(s.identifier, turn.sent, after)
                       && (turn.verdict.Continue? ==> after == turn.state.identifier);
    hide TakeTurn;
    CountedIsNumbered(before, turn.sent, after);
    if Decode(frame).Ok? {
      var received := [Received(Decode(frame).value)];
      assert received[..0] == [] && Requests(received) == 0;
      assert Numbered(received, before);
      hide Numbered;
      RequestsAdd(received, Writes(turn.sent));
      NumbersJoin(received, Writes(turn.sent), before);
    } else {
      assert turn == Turn(s, [], Continue) by {
        UndecodableChangesNothing(s, frame, capacity);
      }
    }
  }

  lemma UndecodableChangesNothing(s: State, frame: seq<byte>, capacity: nat)
    requires Decode(frame).Err?
    ensures TakeTurn(s, frame, capacity) == Turn(s, [], Continue)
  {
  }

  /** For every run: the k-th request, of either protocol, is number k, as far as a byte can tell. */
  lemma RequestsAreNumbered(magic: Quad, w: Wire, patience: nat)
    ensures var t := Trace(NewState(magic), w, patience);
            forall k: nat :: k < |t| && IsRequestSent(t[k]) ==>
              t[k].packet.identifier == (Requests(t[..k]) + 1) % 0x100
  {
    hide Loop, LoopTrace, Sessions.Frames, RenderOptions;
    var s := NewState(magic);
    var opening := SendLCPRequest(s, w.capacity > 0);
    WritesOf(opening.sent);
    if opening.failure.None? {
      var w' := AfterWriting(w, opening.sent);
      var first := Writes(opening.sent);
      assert first[..0] == [] && Requests(first) == 1;
      LoopNumbers(opening.state, 1, w', patience);
      NumbersJoin(first, LoopTrace(opening.state, w', patience), 0);
      var t := Trace(s, w, patience);
      forall k: nat | k < |t| ensures HasNumber(t[k], Requests(t[..k]) + 1) {
        NumberedAt(t, 0, k);
      }
    }
  }

  // --- The requests, byte by byte ---

  lemma ShortPacketOnTheWire(p: Packet)
    requires !p.IsNetwork() && |p.data| < 0x100 - HEADER_LEN
    ensures Encode(p)
            == [0xff, 0x03, p.protocol / 0x100, p.protocol % 0x100, p.code, p.identifier, 0, 4 + |p.data|] + p.data
  {
    var length := WriteUint16(TruncateToUint16(HEADER_LEN + |p.data|));
    assert length == [0, 4 + |p.data|];
    assert WriteUint16(p.protocol) == [p.protocol / 0x100, p.protocol % 0x100];
    hide WriteUint16, TruncateToUint16;
    assert Body(p) == [p.protocol / 0x100, p.protocol % 0x100] + [p.code, p.identifier] + length + p.data;
  }

  lemma OpeningOptions(magic: Quad)
    ensures RenderOptions(InitialLCPOptions(magic)) == [1, 4, 0x05, 0xd4, 5, 6] + magic
  {
    var options := InitialLCPOptions(magic);
    assert options[1..] == [options[1]] && options[1..][1..] == [];
    assert RenderOptions([options[1]]) == RenderOption(options[1]) + [];
    assert RenderOption(options[0]) == [1, 4, 0x05, 0xd4];
    assert RenderOption(options[1]) == [5, 6] + magic;
  }

  /** The first thing on the wire: an LCP request for an MRU of 1492 and the magic number. */
  lemma OpeningOnTheWire(magic: Quad, w: Wire, patience: nat)
    requires w.capacity > 0
    ensures var t := Trace(NewState(magic), w, patience);
            && t != [] && t[0].Sent?
            && Encode(t[0].packet)
               == [0xff, 0x03, 0xc0, 0x21, 1, 1, 0, 14, 1, 4, 0x05, 0xd4, 5, 6] + magic
  {
    hide LoopTrace, RenderOptions, InitialLCPOptions;
    OpeningOptions(magic);
    var p := SendLCPRequest(NewState(magic), true).sent[0];
    WritesOf([p]);
    assert Trace(NewState(magic), w, patience)[0] == Sent(p);
    ShortPacketOnTheWire(p);
    hide Encode;
  }

  lemma AddressOptions(c: Config)
    ensures RenderOptions(IPCPOptions(c))
            == ([3, 6] + AddressOrZero(c.localIP)) + ([129, 6] + AddressOrZero(c.primaryDNS))
               + ([131, 6] + AddressOrZero(c.secondDNS))
  {
    var options := IPCPOptions(c);
    assert options[1..][1..] == [options[2]] && options[1..][1..][1..] == [];
    assert RenderOptions([options[2]]) == RenderOption(options[2]) + [];
    assert RenderOptions(options) == RenderOption(options[0]) + (RenderOption(options[1]) + RenderOption(options[2]));
    Associates(RenderOption(options[0]), RenderOption(options[1]), RenderOption(options[2]));
  }

  /** An IPCP request: the three addresses in their order, zeroes for those unknown. */
  lemma AddressesOnTheWire(s: State)
    ensures var h := SendIPCPRequest(s, true);
            && |h.sent| == 1
            && Encode(h.sent[0])
               == [0xff, 0x03, 0x80, 0x21, 1, TruncateToByte(s.identifier + 1), 0, 22]
                  + (([3, 6] + AddressOrZero(s.requested.localIP))
                     + ([129, 6] + AddressOrZero(s.requested.primaryDNS))
                     + ([131, 6] + AddressOrZero(s.requested.secondDNS)))
  {
    hide RenderOptions, IPCPOptions, TruncateToByte;
    AddressOptions(s.requested);
    IPCPOptionsParse(s.requested);
    ShortPacketOnTheWire(SendIPCPRequest(s, true).sent[0]);
    hide Encode;
  }

  /** What stands before the code of a control packet, and after it. */
  function BeforeCode(p: Packet): (bytes: seq<byte>)
    ensures |bytes| == 4
  {
    [0xff, 0x03] + WriteUint16(p.protocol)
  }

  function AfterCode(p: Packet): seq<byte> {
    [p.identifier] + WriteUint16(TruncateToUint16(HEADER_LEN + |p.data|)) + p.data
  }

  lemma CodeInPlace(p: Packet)
    requires !p.IsNetwork()
    ensures Encode(p) == BeforeCode(p) + [p.code] + AfterCode(p)
  {
    hide TruncateToUint16, WriteUint16;
  }

  /** On the wire an acknowledgement is the request again, but for the code. */
  lemma AcknowledgementOnTheWire(p: Packet)
    requires p.code == CONFIGURE_REQUEST && !p.IsNetwork()
    ensures |Encode(p)| > 4 && Encode(p)[4] == 1 && Encode(p.(code := CONFIGURE_ACK)) == Encode(p)[4 := 2]
  {
    var ack := p.(code := CONFIGURE_ACK);
    CodeInPlace(p);
    CodeInPlace(ack);
    assert BeforeCode(ack) == BeforeCode(p) && AfterCode(ack) == AfterCode(p);
    hide BeforeCode, AfterCode, Encode;
  }

  // --- How a negotiation is ended, and what has been acknowledged by then ---

  /** The peer ended the link. */
  predicate Terminated(t: seq<Event>) {
    exists k :: 0 <= k < |t| && t[k].Received? && t[k].packet.protocol == PROTOCOL_LCP
                && t[k].packet.code == TERMINATE_REQUEST
  }

  /** Some request of the peer's has been acknowledged, with its own identifier and options. */
  predicate Acknowledged(t: seq<Event>, protocol: uint16) {
    exists k :: 0 < k < |t| && t[k - 1].Received? && t[k - 1].packet.protocol == protocol
                && t[k - 1].packet.code == CONFIGURE_REQUEST
                && t[k] == Sent(t[k - 1].packet.(code := CONFIGURE_ACK))
  }

  lemma TerminatedJoins(a: seq<Event>, b: seq<Event>)
    ensures Terminated(a + b) <==> Terminated(a) || Terminated(b)
  {
    if Terminated(a) {
      var k :| 0 <= k < |a| && a[k].Received? && a[k].packet.protocol == PROTOCOL_LCP
               && a[k].packet.code == TERMINATE_REQUEST;
      assert (a + b)[k] == a[k];
    }
    if Terminated(b) {
      var k :| 0 <= k < |b| && b[k].Received? && b[k].packet.protocol == PROTOCOL_LCP
               && b[k].packet.code == TERMINATE_REQUEST;
      assert (a + b)[|a| + k] == b[k];
    }
  }

  /** Whether a trace that starts with something received acknowledges more than what came before it. */
  lemma AcknowledgedJoins(a: seq<Event>, b: seq<Event>, protocol: uint16)
    requires b != [] ==> b[0].Received?
    ensures Acknowledged(a + b, protocol) <==> Acknowledged(a, protocol) || Acknowledged(b, protocol)
  {
    var t := a + b;
    if Acknowledged(t, protocol) {
      var k :| 0 < k < |t| && t[k - 1].Received? && t[k - 1].packet.protocol == protocol
               && t[k - 1].packet.code == CONFIGURE_REQUEST && t[k] == Sent(t[k - 1].packet.(code := CONFIGURE_ACK));
      if k < |a| {
        assert a[k - 1] == t[k - 1] && a[k] == t[k];
      } else {
        assert b[k - |a|] == t[k];
        assert k > |a| && b[k - |a| - 1] == t[k - 1];
      }
    }
    if Acknowledged(a, protocol) {
      var k :| 0 < k < |a| && a[k - 1].Received? && a[k - 1].packet.protocol == protocol
               && a[k - 1].packet.code == CONFIGURE_REQUEST && a[k] == Sent(a[k - 1].packet.(code := CONFIGURE_ACK));
      assert t[k - 1] == a[k - 1] && t[k] == a[k];
    }
    if Acknowledged(b, protocol) {
      var k :| 0 < k < |b| && b[k - 1].Received? && b[k - 1].packet.protocol == protocol
               && b[k - 1].packet.code == CONFIGURE_REQUEST && b[k] == Sent(b[k - 1].packet.(code := CONFIGURE_ACK));
      assert t[|a| + k - 1] == b[k - 1] && t[|a| + k] == b[k];
    }
  }

  /** What one packet handled shows of both. */
  predicate Shows(s: State, p: Packet, h: Handled) {
    && |h.sent| <= 1 && h.state.magic == s.magic
    && (h.failure == Some(GatewayTerminated) <==> p.protocol == PROTOCOL_LCP && p.code == TERMINATE_REQUEST)
    && (h.state.lcpRemoteDone <==> s.lcpRemoteDone || (p.protocol == PROTOCOL_LCP && Acks(p, h)))
    && (h.state.ipcpRemoteDone <==> s.ipcpRemoteDone || (p.protocol == PROTOCOL_IPCP && Acks(p, h)))
  }

  predicate Acks(p: Packet, h: Handled) {
    p.code == CONFIGURE_REQUEST && h.sent != [] && h.sent[0] == p.(code := CONFIGURE_ACK)
  }

  lemma LcpShows(s: State, p: Packet, writable: bool)
    requires p.protocol == PROTOCOL_LCP
    ensures Shows(s, p, LcpStep(s, p, writable))
  {
    hide ParseOptions, RenderOptions, Rejected, Accepted, UndisputedOptions;
    if p.code == CONFIGURE_REQUEST && ParseOptions(p.data).Ok? {
      LcpRequestIsAnsweredOnce(s, p);
      NothingRejected(ParseOptions(p.data).value);
      RenderInvertsParse(p.data);
    }
  }

  lemma IpcpShows(s: State, p: Packet, writable: bool)
    requires p.protocol == PROTOCOL_IPCP
    ensures Shows(s, p, IpcpStep(s, p, writable))
  {
    if p.code == CONFIGURE_REQUEST {
      AnswerShows(s, p, writable);
      assert IpcpStep(s, p, writable) == AnswerIPCPRequest(s, p, writable);
    } else {
      OtherShows(s, p, writable);
    }
    hide Shows, IpcpStep, AnswerIPCPRequest;
  }

  lemma OtherShows(s: State, p: Packet, writable: bool)
    requires p.protocol == PROTOCOL_IPCP && p.code != CONFIGURE_REQUEST
    ensures Shows(s, p, IpcpStep(s, p, writable))
  {
    hide ParseOptions, Adopt, DropRejected, SendIPCPRequest;
    if ParseOptions(p.data).Ok? {
      AskingShows(s.(requested := Adopt(ParseOptions(p.data).value, s.requested).config), writable);
      AskingShows(s.(requested := DropRejected(ParseOptions(p.data).value, s.requested).requested), writable);
    }
  }

  lemma AnswerShows(s: State, p: Packet, writable: bool)
    requires p.protocol == PROTOCOL_IPCP && p.code == CONFIGURE_REQUEST
    ensures Shows(s, p, AnswerIPCPRequest(s, p, writable))
  {
    hide ParseOptions, ReadPeerAddress;
  }

  lemma AskingShows(s: State, writable: bool)
    ensures var h := SendIPCPRequest(s, writable);
            && h.failure != Some(GatewayTerminated) && (h.failure.None? ==> h.sent != [])
            && h.state == s.(ipcpRequestSent := true, identifier := TruncateToByte(s.identifier + 1))
            && (h.sent != [] ==> && h.sent[0].code == CONFIGURE_REQUEST
                                 && h.sent[0].identifier == TruncateToByte(s.identifier + 1))
  {
    hide RenderOptions, IPCPOptions;
  }

  lemma StartingShows(h: Handled, capacity: nat)
    requires |h.sent| <= 1 && |h.sent| <= capacity
    ensures var turn := AfterHandling(h, capacity);
            && turn.state.lcpRemoteDone == h.state.lcpRemoteDone && turn.state.ipcpRemoteDone == h.state.ipcpRemoteDone
            && (turn.verdict == Fail(GatewayTerminated) <==> h.failure == Some(GatewayTerminated))
            && (turn.verdict.Done? ==> turn.state.ipcpRemoteDone)
  {
    hide RenderOptions, IPCPOptions;
  }

  lemma TurnShows(s: State, frame: seq<byte>, capacity: nat)
    ensures var turn, t := TakeTurn(s, frame, capacity), TurnEvents(s, frame, capacity);
            && (t != [] ==> t[0].Received?)
            && (turn.verdict == Fail(GatewayTerminated) <==> Terminated(t))
            && (turn.state.lcpRemoteDone <==> s.lcpRemoteDone || Acknowledged(t, PROTOCOL_LCP))
            && (turn.state.ipcpRemoteDone <==> s.ipcpRemoteDone || Acknowledged(t, PROTOCOL_IPCP))
            && (turn.verdict.Done? ==> turn.state.ipcpRemoteDone)
  {
    hide Decode, LcpStep, IpcpStep, AfterHandling;
    if Decode(frame).Ok? {
      var p, turn := Decode(frame).value, TakeTurn(s, frame, capacity);
      var t := TurnEvents(s, frame, capacity);
      AtMostTwo(s, frame, capacity);
      WritesOf(turn.sent);
      assert t[0] == Received(p);
      if p.protocol == PROTOCOL_LCP || p.protocol == PROTOCOL_IPCP {
        var h := if p.protocol == PROTOCOL_LCP then LcpStep(s, p, capacity > 0) else IpcpStep(s, p, capacity > 0);
        if p.protocol == PROTOCOL_LCP {
          LcpShows(s, p, capacity > 0);
        } else {
          IpcpShows(s, p, capacity > 0);
        }
        StartingShows(h, capacity);
        StartedIsARequest(h, capacity);
        assert Acks(p, h) <==> |t| > 1 && p.code == CONFIGURE_REQUEST && t[1] == Sent(p.(code := CONFIGURE_ACK));
      }
    }
  }

  lemma {:induction false} LoopShows(t: seq<Event>, s: State, w: Wire, patience: nat)
    requires s.lcpRemoteDone <==> Acknowledged(t, PROTOCOL_LCP)
    requires s.ipcpRemoteDone <==> Acknowledged(t, PROTOCOL_IPCP)
    ensures var n, later := Loop(s, w, patience), LoopTrace(s, w, patience);
            && (n.result == Err(GatewayTerminated) <==> Terminated(later))
            && (n.state.lcpRemoteDone <==> Acknowledged(t + later, PROTOCOL_LCP))
            && (n.state.ipcpRemoteDone <==> Acknowledged(t + later, PROTOCOL_IPCP))
            && (n.result.Ok? ==> n.state.ipcpRemoteDone)
    decreases |w.incoming|
  {
    hide TakeTurn, TurnEvents, Sessions.Frames, Acknowledged, Terminated;
    if patience == 0 || w.incoming == [] {
      assert t + [] == t;
      assert !Terminated([]) by {
        NothingTerminated();
      }
    } else {
      var frame := w.incoming[0];
      var turn, events := TakeTurn(s, frame, w.capacity), TurnEvents(s, frame, w.capacity);
      var w' := AfterWriting(w.(incoming := w.incoming[1..]), turn.sent);
      TurnShows(s, frame, w.capacity);
      AcknowledgedJoins(t, events, PROTOCOL_LCP);
      AcknowledgedJoins(t, events, PROTOCOL_IPCP);
      if turn.verdict.Continue? {
        var later := LoopTrace(turn.state, w', patience - 1);
        LoopShows(t + events, turn.state, w', patience - 1);
        TerminatedJoins(events, later);
        assert t + (events + later) == (t + events) + later;
      } else {
        assert events + [] == events;
      }
    }
  }

  lemma NothingTerminated()
    ensures !Terminated([])
  {
  }

  /** For every run, whatever the peer sends: Negotiate reports that the gateway ended it exactly if the gateway
      did; each remote flag says exactly whether a request of that protocol has been acknowledged, under its own
      identifier and with its own options; and no run succeeds without such an acknowledgement of IPCP. */
  lemma OutcomesAreEarned(magic: Quad, w: Wire, patience: nat)
    ensures var n, t := Negotiation(NewState(magic), w, patience), Trace(NewState(magic), w, patience);
            && (n.result == Err(GatewayTerminated) <==> Terminated(t))
            && (n.state.lcpRemoteDone <==> Acknowledged(t, PROTOCOL_LCP))
            && (n.state.ipcpRemoteDone <==> Acknowledged(t, PROTOCOL_IPCP))
            && (n.result.Ok? ==> Acknowledged(t, PROTOCOL_IPCP))
  {
    hide Loop, LoopTrace, Sessions.Frames, RenderOptions;
    var s := NewState(magic);
    var opening := SendLCPRequest(s, w.capacity > 0);
    WritesOf(opening.sent);
    if opening.failure.None? {
      var w' := AfterWriting(w, opening.sent);
      LoopShows(Writes(opening.sent), opening.state, w', patience);
      TerminatedJoins(Writes(opening.sent), LoopTrace(opening.state, w', patience));
    }
  }

  /** Handling a packet never blames the reading or the user, and the writing only on a full link. */
  predicate BlamesWell(h: Handled, writable: bool) {
    && h.failure != Some(ReadFailed) && h.failure != Some(Cancelled)
    && |h.sent| <= 1 && (h.failure == Some(WriteFailed) ==> !writable)
  }

  lemma LcpBlamesWell(s: State, p: Packet, writable: bool)
    ensures BlamesWell(LcpStep(s, p, writable), writable)
  {
    hide ParseOptions, RenderOptions, Rejected, Accepted, UndisputedOptions;
  }

  lemma IpcpBlamesWell(s: State, p: Packet, writable: bool)
    ensures BlamesWell(IpcpStep(s, p, writable), writable)
  {
    hide ParseOptions, RenderOptions, IPCPOptions, Adopt, ReadPeerAddress, DropRejected;
  }

  lemma TurnBlamesWell(s: State, frame: seq<byte>, capacity: nat)
    ensures var turn := TakeTurn(s, frame, capacity);
            && turn.verdict != Fail(ReadFailed) && turn.verdict != Fail(Cancelled)
            && (turn.verdict == Fail(WriteFailed) ==> |turn.sent| == capacity)
  {
    hide Decode, LcpStep, IpcpStep, RenderOptions, IPCPOptions;
    if Decode(frame).Ok? {
      LcpBlamesWell(s, Decode(frame).value, capacity > 0);
      IpcpBlamesWell(s, Decode(frame).value, capacity > 0);
    }
  }

  lemma {:induction false} LoopBlamesWell(s: State, w: Wire, patience: nat)
    ensures var n := Loop(s, w, patience);
            && |n.wire.incoming| <= |w.incoming|
            && (n.result == Err(Cancelled) ==> |w.incoming| - |n.wire.incoming| == patience)
            && (n.result == Err(ReadFailed) ==> n.wire.incoming == [] && |w.incoming| < patience)
            && (n.result == Err(WriteFailed) ==> n.wire.capacity == 0)
    decreases |w.incoming|
  {
    hide TakeTurn, Sessions.Frames;
    if patience > 0 && w.incoming != [] {
      var turn := TakeTurn(s, w.incoming[0], w.capacity);
      TurnBlamesWell(s, w.incoming[0], w.capacity);
      if turn.verdict.Continue? {
        LoopBlamesWell(turn.state, AfterWriting(w.(incoming := w.incoming[1..]), turn.sent), patience - 1);
      }
    }
  }

  /** For every run: Negotiate reports a cancellation only once the context was found cancelled, a failed read only when
      nothing more comes, and a failed write only when the link takes no more. */
  lemma FailuresAreNotInvented(magic: Quad, w: Wire, patience: nat)
    ensures var n := Negotiation(NewState(magic), w, patience);
            && (n.result == Err(Cancelled) ==> |w.incoming| - |n.wire.incoming| == patience)
            && (n.result == Err(ReadFailed) ==> n.wire.incoming == [] && |w.incoming| < patience)
            && (n.result == Err(WriteFailed) ==> n.wire.capacity == 0)
  {
    hide Loop, Sessions.Frames, RenderOptions;
    var opening := SendLCPRequest(NewState(magic), w.capacity > 0);
    if opening.failure.None? {
      LoopBlamesWell(opening.state, AfterWriting(w, opening.sent), patience);
    }
  }

  /** An acknowledgement that has been sent acknowledges something. */
  lemma AckSentIsAcknowledged(magic: Quad, t: seq<Event>)
    requires RepliesFollow(magic, t) && AckSent(t)
    ensures Acknowledged(t, PROTOCOL_LCP)
  {
    var e :| e in t && e.Sent? && IsLcpAck(e.packet);
    var k :| 0 <= k < |t| && t[k] == e;
    assert IsReply(t[k]) && Answers(magic, t[k - 1].packet, t[k].packet);
    assert t[k] == Sent(t[k - 1].packet.(code := CONFIGURE_ACK));
  }
}
