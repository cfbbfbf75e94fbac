/** The updates channel: one buffered snapshot, one goroutine that emits, one that renders.
    internal/client/state/controller.go. A snapshot is known by its place in the order of emission. */
module Mailboxes {
  import opened Bytes

  /** Where the emitting goroutine stands: between calls, or before one of emit's three selects. */
  datatype Place = Idle | AtOffer | AtDrop | AtReplace

  /** `lost` is set if the third select ever takes its default branch. */
  datatype Mailbox = Mailbox(
    buffer: Option<nat>, place: Place, emitted: nat, received: seq<nat>, dropped: set<nat>, lost: bool)

  const EMPTY := Mailbox(None, Idle, 0, [], {}, false)

  /** Call enters emit with the next snapshot, Select runs the next select, Receive is the renderer taking
      what is there. */
  datatype Event = Call | Select | Receive

  function Next(m: Mailbox, e: Event): Mailbox {
    match e
    case Call => if m.place == Idle then m.(place := AtOffer, emitted := m.emitted + 1) else m
    case Receive =>
      if m.buffer.Some? then m.(buffer := None, received := m.received + [m.buffer.value]) else m
    case Select =>
      match m.place
      case Idle => m
      case AtOffer => if m.buffer.None? then m.(buffer := Some(m.emitted), place := Idle) else m.(place := AtDrop)
      case AtDrop =>
        if m.buffer.Some? then m.(buffer := None, dropped := m.dropped + {m.buffer.value}, place := AtReplace)
        else m.(place := AtReplace)
      case AtReplace =>
        if m.buffer.None? then m.(buffer := Some(m.emitted), place := Idle) else m.(lost := true, place := Idle)
  }

  function Run(m: Mailbox, events: seq<Event>): Mailbox
    decreases |events|
  {
    if events == [] then m else Run(Next(m, events[0]), events[1..])
  }

  predicate Ascending(s: seq<nat>) {
    forall i, j :: 0 <= i < j < |s| ==> s[i] < s[j]
  }

  /** Every snapshot emitted is in exactly one place; the one a call is still holding counts as emitted. */
  predicate Placed(m: Mailbox) {
    var settled: nat := if m.place == Idle then m.emitted else if m.emitted > 0 then m.emitted - 1 else 0;
    && (forall n :: n in m.received ==> 1 <= n <= settled && n !in m.dropped && m.buffer != Some(n))
    && (forall n :: n in m.dropped ==> 1 <= n < m.emitted && m.buffer != Some(n))
    && (m.buffer.Some? ==> 1 <= m.buffer.value <= settled)
    && (forall n :: 1 <= n <= settled ==> n in m.received || n in m.dropped || m.buffer == Some(n))
  }

  predicate Inv(m: Mailbox) {
    && !m.lost
    && Ascending(m.received)
    && Placed(m)
    && (m.place != Idle ==> m.emitted >= 1)
    && (m.place == AtReplace ==> m.buffer.None?)
    && (m.buffer.Some? ==> forall n :: n in m.received ==> n < m.buffer.value)
    && (m.buffer.Some? ==> m.buffer.value == if m.place == Idle then m.emitted else m.emitted - 1)
    && (m.place == Idle && m.emitted > 0 ==> m.buffer == Some(m.emitted) || m.emitted in m.received)
  }

  lemma ReceiveKeeps(m: Mailbox)
    requires Inv(m)
    ensures Inv(Next(m, Receive))
  {
    if m.buffer.Some? {
      var received := m.received + [m.buffer.value];
      forall i, j | 0 <= i < j < |received| ensures received[i] < received[j] {
        if j == |m.received| {
          assert received[i] in m.received;
        }
      }
      assert received[|m.received|] == m.buffer.value;
      assert forall n :: n in m.received ==> n in received;
    }
  }

  lemma SelectKeeps(m: Mailbox)
    requires Inv(m)
    ensures Inv(Next(m, Select))
  {
    assert m.place == AtDrop && m.buffer.Some? ==> m.emitted - 1 == m.buffer.value;
  }

  lemma CallKeeps(m: Mailbox)
    requires Inv(m)
    ensures Inv(Next(m, Call))
  {
  }

  lemma {:induction false} RunKeeps(m: Mailbox, events: seq<Event>)
    requires Inv(m)
    ensures Inv(Run(m, events))
    decreases |events|
  {
    hide Inv;
    if events != [] {
      match events[0] {
        case Call => CallKeeps(m);
        case Select => SelectKeeps(m);
        case Receive => ReceiveKeeps(m);
      }
      RunKeeps(Next(m, events[0]), events[1..]);
    }
  }

  /** For every interleaving: the replacing select never fails; the renderer sees snapshots in the order
      they were emitted, never one twice; each snapshot emitted was rendered, replaced by a newer one, or
      is waiting; and once emit has returned the newest is rendered or waiting. */
  lemma LatestValueWins(events: seq<Event>)
    ensures var m := Run(EMPTY, events);
            && !m.lost
            && Ascending(m.received)
            && (forall n :: n in m.received ==> n !in m.dropped && m.buffer != Some(n))
            && (m.place == Idle ==> forall n :: 1 <= n <= m.emitted ==>
                  n in m.received || n in m.dropped || m.buffer == Some(n))
            && (m.place == Idle && m.emitted > 0 ==>
                  m.buffer == Some(m.emitted) || (m.received != [] && m.received[|m.received| - 1] == m.emitted))
  {
    RunKeeps(EMPTY, events);
    var m := Run(EMPTY, events);
    if m.place == Idle && m.emitted in m.received {
      var i :| 0 <= i < |m.received| && m.received[i] == m.emitted;
      assert m.received[|m.received| - 1] in m.received;
    }
  }

  /** emit never waits: at most three of its own steps, whatever the renderer does between them. */
  predicate Selects(events: seq<Event>, n: nat)
    decreases |events|
  {
    if events == [] then n == 0
    else if events[0] == Select then n > 0 && Selects(events[1..], n - 1)
    else Selects(events[1..], n)
  }

  function Left(place: Place): nat {
    match place
    case Idle => 0
    case AtOffer => 3
    case AtDrop => 2
    case AtReplace => 1
  }

  lemma {:induction false} EmitNeverWaits(m: Mailbox, events: seq<Event>, n: nat)
    requires Selects(events, n) && n >= Left(m.place) && Call !in events
    ensures Run(m, events).place == Idle && Run(m, events).emitted == m.emitted
    decreases |events|
  {
    if events != [] {
      EmitNeverWaits(Next(m, events[0]), events[1..], if events[0] == Select then n - 1 else n);
    }
  }

  function MaybeReceive(m: Mailbox, receive: bool): Mailbox {
    if receive then Next(m, Receive) else m
  }

  /** One call of emit, the renderer getting in before each select as `receives` says. */
  function Emitting(m: Mailbox, receives: (bool, bool, bool)): Mailbox {
    var first := Next(MaybeReceive(Next(m, Call), receives.0), Select);
    if first.place == Idle then first
    else
      var second := Next(MaybeReceive(first, receives.1), Select);
      Next(MaybeReceive(second, receives.2), Select)
  }

  lemma EmittingKeeps(m: Mailbox, receives: (bool, bool, bool))
    requires Inv(m) && m.place == Idle
    ensures Inv(Emitting(m, receives)) && Emitting(m, receives).place == Idle && !Emitting(m, receives).lost
  {
    assert forall x: Mailbox :: Inv(x) ==> !x.lost;
    hide Inv;
    CallKeeps(m);
    var called := MaybeReceive(Next(m, Call), receives.0);
    ReceiveKeeps(Next(m, Call));
    SelectKeeps(called);
    var first := Next(called, Select);
    if first.place != Idle {
      ReceiveKeeps(first);
      SelectKeeps(MaybeReceive(first, receives.1));
      var second := Next(MaybeReceive(first, receives.1), Select);
      ReceiveKeeps(second);
      SelectKeeps(MaybeReceive(second, receives.2));
    }
  }

  /** The channel as emit uses it. */
  class Updates {
    var buffer: Option<nat>
    var emitted: nat
    ghost var received: seq<nat>
    ghost var dropped: set<nat>

    constructor ()
      ensures View() == EMPTY
    {
      buffer, emitted, received, dropped := None, 0, [], {};
    }

    ghost function View(): Mailbox
      reads this
    {
      Mailbox(buffer, Idle, emitted, received, dropped, false)
    }

    method Take(receive: bool)
      modifies this`buffer, this`received
      ensures View() == MaybeReceive(old(View()), receive)
    {
      if receive && buffer.Some? {
        received := received + [buffer.value];
        buffer := None;
      }
    }

    /** Sends the next snapshot; `sent` says whether one of the two sending selects took it. */
    method Emit(receives: (bool, bool, bool)) returns (sent: bool)
      requires Inv(View())
      modifies this
      ensures View() == Emitting(old(View()), receives)
      ensures sent && Inv(View())
    {
      hide Inv;
      EmittingKeeps(View(), receives);
      emitted := emitted + 1;
      Take(receives.0);
      if buffer.None? {
        buffer := Some(emitted);
        return true;
      }
      Take(receives.1);
      if buffer.Some? {
        dropped := dropped + {buffer.value};
        buffer := None;
      }
      Take(receives.2);
      sent := false;
      if buffer.None? {
        buffer := Some(emitted);
        sent := true;
      }
    }
  }

}
