/** A live connection being closed while its two pumps run: internal/service/vpn/connection.go. The
    closer and the pumps are three threads over the shared fields; every step below is one call or one
    test of the source. */
module Pumps {
  import opened Bytes

  /** Why a call failed: on its own account, because Close had already taken the resource away, or the
      one call whose failure is reported without asking whether Close was under way. */
  datatype Cause = Genuine | TornDown | DeadlineOnClosedLink

  /** Close, in the order of its statements. */
  datatype Closer =
    | NotCalled | ContextCancelled | DeadlineForced | Reverted | DeviceClosed | LinkClosed | Marked | Finished

  datatype Pump =
    | Top                        // about to test the context
    | Arming                     // tunnel pump only: about to set the read deadline
    | Reading                    // inside the blocking read
    | Delivering                 // inside the write or the control handler
    | Failed(cause: Cause)       // about to test the context after a failed call
    | Stopping(cause: Cause)     // about to record the failure
    | Exited

  datatype Side = Tunnel | Device

  /** Shared fields, threads, and two history counters: iterations completed since the cancellation. */
  datatype World = World(
    closer: Closer, tunnel: Pump, device: Pump,
    doneClosed: nat, failure: Option<Cause>,
    tunnelLaps: nat, deviceLaps: nat)

  datatype Event =
    | CloseStep
    | Test(side: Side)
    | Arm
    | ArmFails(cause: Cause)
    | ReadReturns(side: Side, worthDelivering: bool)
    | ReadFails(side: Side, cause: Cause)
    | DeliveryReturns(side: Side)
    | DeliveryFails(side: Side, cause: Cause)
    | TestAfterFailure(side: Side)
    | Record(side: Side)

  const START := World(NotCalled, Top, Top, 0, None, 0, 0)

  function Rank(c: Closer): nat {
    match c
    case NotCalled => 7
    case ContextCancelled => 6
    case DeadlineForced => 5
    case Reverted => 4
    case DeviceClosed => 3
    case LinkClosed => 2
    case Marked => 1
    case Finished => 0
  }

  predicate Cancelled(w: World) {
    !w.closer.NotCalled?
  }

  predicate DeadlineWasForced(w: World) {
    Rank(w.closer) <= 5
  }

  /** Revert has taken the interface down. */
  predicate InterfaceIsDown(w: World) {
    Rank(w.closer) <= 4
  }

  predicate DeviceIsClosed(w: World) {
    Rank(w.closer) <= 3
  }

  predicate LinkIsClosed(w: World) {
    Rank(w.closer) <= 2
  }

  function PumpOf(w: World, side: Side): Pump {
    if side.Tunnel? then w.tunnel else w.device
  }

  /** The resource a pump reads from, and the one it writes to. */
  predicate SourceTaken(w: World, side: Side) {
    if side.Tunnel? then DeadlineWasForced(w) || LinkIsClosed(w) else InterfaceIsDown(w)
  }

  /** The tunnel pump delivers packets to the device and control answers to the link. */
  predicate TargetTaken(w: World, side: Side) {
    if side.Tunnel? then InterfaceIsDown(w) || LinkIsClosed(w) else LinkIsClosed(w)
  }

  /** A call fails on account of the teardown only once the teardown has reached its resource. */
  predicate MayFail(cause: Cause, taken: bool) {
    cause.Genuine? || (cause.TornDown? && taken)
  }

  predicate Enabled(w: World, e: Event) {
    match e
    case CloseStep => w.closer != Finished && (w.closer == Marked ==> w.tunnel.Exited? && w.device.Exited?)
    case Test(side) => PumpOf(w, side).Top?
    case Arm => w.tunnel.Arming?
    case ArmFails(cause) => w.tunnel.Arming? && (cause.Genuine? || (cause.DeadlineOnClosedLink? && LinkIsClosed(w)))
    case ReadReturns(side, _) => PumpOf(w, side).Reading?
    case ReadFails(side, cause) => PumpOf(w, side).Reading? && MayFail(cause, SourceTaken(w, side))
    case DeliveryReturns(side) => PumpOf(w, side).Delivering?
    case DeliveryFails(side, cause) => PumpOf(w, side).Delivering? && MayFail(cause, TargetTaken(w, side))
    case TestAfterFailure(side) => PumpOf(w, side).Failed?
    case Record(side) => PumpOf(w, side).Stopping?
  }

  function Move(w: World, side: Side, p: Pump): World {
    if side.Tunnel? then w.(tunnel := p) else w.(device := p)
  }

  /** The end of an iteration. */
  function Lap(w: World, side: Side): World {
    if !Cancelled(w) then Move(w, side, Top)
    else if side.Tunnel? then w.(tunnel := Top, tunnelLaps := w.tunnelLaps + 1)
    else w.(device := Top, deviceLaps := w.deviceLaps + 1)
  }

  /** markDone: the once-guard lets only the first call through. */
  function MarkDone(w: World, cause: Option<Cause>): World {
    if w.doneClosed > 0 then w
    else w.(doneClosed := w.doneClosed + 1, failure := if cause.Some? then cause else w.failure)
  }

  function NextCloser(c: Closer): Closer {
    match c
    case NotCalled => ContextCancelled
    case ContextCancelled => DeadlineForced
    case DeadlineForced => Reverted
    case Reverted => DeviceClosed
    case DeviceClosed => LinkClosed
    case LinkClosed => Marked
    case Marked => Finished
    case Finished => Finished
  }

  function Next(w: World, e: Event): World
    requires Enabled(w, e)
  {
    match e
    case CloseStep =>
      var w' := w.(closer := NextCloser(w.closer));
      if w.closer.LinkClosed? then MarkDone(w', None) else w'
    case Test(side) =>
      Move(w, side, if Cancelled(w) then Exited else if side.Tunnel? then Arming else Reading)
    case Arm => w.(tunnel := Reading)
    case ArmFails(cause) => w.(tunnel := Stopping(cause))
    case ReadReturns(side, worthDelivering) => if worthDelivering then Move(w, side, Delivering) else Lap(w, side)
    case ReadFails(side, cause) => Move(w, side, Failed(cause))
    case DeliveryReturns(side) => Lap(w, side)
    case DeliveryFails(side, cause) => Move(w, side, Failed(cause))
    case TestAfterFailure(side) =>
      Move(w, side, if Cancelled(w) then Exited else Stopping(PumpOf(w, side).cause))
    case Record(side) => Move(MarkDone(w, Some(PumpOf(w, side).cause)), side, Exited)
  }

  predicate ValidRun(w: World, events: seq<Event>)
    decreases |events|
  {
    events == [] || (Enabled(w, events[0]) && ValidRun(Next(w, events[0]), events[1..]))
  }

  function Run(w: World, events: seq<Event>): World
    requires ValidRun(w, events)
    decreases |events|
  {
    if events == [] then w else Run(Next(w, events[0]), events[1..])
  }

  // --- What holds in every reachable world ---

  /** A pump that holds a failure the teardown caused knows, or will find out, that it is being closed. */
  predicate PumpInv(w: World, p: Pump, side: Side) {
    && (p == Failed(TornDown) ==> Cancelled(w))
    && p != Stopping(TornDown) && p != Failed(DeadlineOnClosedLink)
    && (p == Stopping(DeadlineOnClosedLink) ==> side.Tunnel? && LinkIsClosed(w))
    && (p.Arming? ==> side.Tunnel?)
  }

  /** After the cancellation a pump that completed an iteration is about to leave. */
  predicate LapInv(laps: nat, p: Pump, cancelled: bool) {
    && laps <= 1
    && (laps == 1 ==> p.Top? || p.Exited?)
    && (!cancelled ==> laps == 0)
  }

  predicate PumpsInv(w: World) {
    && PumpInv(w, w.tunnel, Tunnel) && PumpInv(w, w.device, Device)
    && LapInv(w.tunnelLaps, w.tunnel, Cancelled(w)) && LapInv(w.deviceLaps, w.device, Cancelled(w))
  }

  predicate DoneInv(w: World) {
    && w.doneClosed <= 1
    && (w.failure.Some? ==> w.doneClosed == 1)
    && (Rank(w.closer) <= 1 ==> w.doneClosed == 1)
    && w.failure != Some(TornDown)
    && (w.failure == Some(DeadlineOnClosedLink) ==> LinkIsClosed(w))
    && (w.closer.Finished? ==> w.tunnel.Exited? && w.device.Exited?)
  }

  predicate Inv(w: World) {
    PumpsInv(w) && DoneInv(w)
  }

  lemma PumpsStepKeeps(w: World, e: Event)
    requires PumpsInv(w) && Enabled(w, e)
    ensures PumpsInv(Next(w, e))
  {
    if e.CloseStep? {
      var w' := Next(w, e);
      assert w'.tunnel == w.tunnel && w'.device == w.device;
      assert w'.tunnelLaps == w.tunnelLaps && w'.deviceLaps == w.deviceLaps;
    }
  }

  lemma DoneStepKeeps(w: World, e: Event)
    requires PumpsInv(w) && DoneInv(w) && Enabled(w, e)
    ensures DoneInv(Next(w, e))
  {
    hide LapInv;
  }

  lemma StepKeeps(w: World, e: Event)
    requires Inv(w) && Enabled(w, e)
    ensures Inv(Next(w, e))
  {
    hide PumpsInv, DoneInv, Next, Enabled;
    PumpsStepKeeps(w, e);
    DoneStepKeeps(w, e);
  }

  lemma {:induction false} RunKeeps(w: World, events: seq<Event>)
    requires Inv(w) && ValidRun(w, events)
    ensures Inv(Run(w, events))
    decreases |events|
  {
    hide Inv, Next, Enabled;
    if events != [] {
      StepKeeps(w, events[0]);
      RunKeeps(Next(w, events[0]), events[1..]);
    }
  }

  /** Done is closed at most once, and once it is, the recorded cause never changes again. */
  lemma {:induction false} FirstCauseStays(w: World, events: seq<Event>)
    requires ValidRun(w, events) && w.doneClosed == 1
    ensures Run(w, events).doneClosed == 1 && Run(w, events).failure == w.failure
    decreases |events|
  {
    if events != [] {
      FirstCauseStays(Next(w, events[0]), events[1..]);
    }
  }

  /** In every schedule: done is closed at most once, each pump completes at most one more iteration
      after the cancellation, and a failure that Close itself caused is never recorded, except by the
      tunnel pump arming its deadline on a link that Close has just closed. */
  lemma ClosingIsQuiet(events: seq<Event>)
    requires ValidRun(START, events)
    ensures var w := Run(START, events);
            && w.doneClosed <= 1 && w.tunnelLaps <= 1 && w.deviceLaps <= 1
            && w.failure != Some(TornDown)
            && (w.failure == Some(DeadlineOnClosedLink) ==> LinkIsClosed(w))
  {
    RunKeeps(START, events);
  }

  // --- What happens while nobody has called Close ---

  /** A pump that is gone has recorded why, and nothing else has been recorded. */
  predicate Told(w: World) {
    w.closer.NotCalled? ==>
      && (w.doneClosed == 1 <==> w.tunnel.Exited? || w.device.Exited?)
      && (w.doneClosed == 0 <==> w.failure.None?)
      && (w.failure.Some? ==> w.failure == Some(Genuine))
  }

  lemma {:induction false} RunTells(w: World, events: seq<Event>)
    requires Inv(w) && Told(w) && ValidRun(w, events)
    ensures Told(Run(w, events))
    decreases |events|
  {
    hide Inv;
    if events != [] {
      StepKeeps(w, events[0]);
      assert Told(Next(w, events[0])) by {
        StepTells(w, events[0]);
      }
      hide Told, Next, Enabled;
      RunTells(Next(w, events[0]), events[1..]);
    }
  }

  lemma StepTells(w: World, e: Event)
    requires Inv(w) && Told(w) && Enabled(w, e)
    ensures Told(Next(w, e))
  {
    if e.Record? && w.closer.NotCalled? {
      var p := PumpOf(w, e.side);
      assert PumpInv(w, p, e.side) && !LinkIsClosed(w);
      assert p == Stopping(p.cause);
      assert p.cause == Genuine;
    }
  }

  /** In every schedule, until Close is called: done is closed exactly if one of the pumps has gone, and then a
      failure of its own has been recorded. A link that drops is never left unnoticed. */
  lemma NobodyLeavesSilently(events: seq<Event>)
    requires ValidRun(START, events) && Run(START, events).closer.NotCalled?
    ensures var w := Run(START, events);
            && (w.doneClosed == 1 <==> w.tunnel.Exited? || w.device.Exited?)
            && (if w.doneClosed == 1 then w.failure == Some(Genuine) else w.doneClosed == 0 && w.failure.None?)
  {
    hide Next, Enabled;
    RunKeeps(START, events);
    RunTells(START, events);
  }

  /** What a pump calls in an iteration, and what it fails with. */
  predicate FailsWith(e: Event, side: Side, cause: Cause) {
    e == ReadFails(side, cause) || e == DeliveryFails(side, cause) || (side.Tunnel? && e == ArmFails(cause))
  }

  /** Whichever call of a pump fails before Close is called and before anything has stopped: its own next steps,
      three at most, record that very failure, close done and end the pump. */
  lemma FailureIsRecorded(w: World, side: Side, e: Event, cause: Cause)
    requires w.closer.NotCalled? && w.doneClosed == 0 && Enabled(w, e) && FailsWith(e, side, cause)
    ensures var events := if e.ArmFails? then [e, Record(side)] else [e, TestAfterFailure(side), Record(side)];
            && ValidRun(w, events)
            && Run(w, events) == Move(w, side, Exited).(doneClosed := 1, failure := Some(cause))
  {
    var stopping := Move(w, side, Stopping(cause));
    ExtendRun(w, [], e);
    if !e.ArmFails? {
      ExtendRun(w, [e], TestAfterFailure(side));
      assert [e] + [TestAfterFailure(side)] + [Record(side)] == [e, TestAfterFailure(side), Record(side)];
    }
    assert Next(w, e) == if e.ArmFails? then stopping else Move(w, side, Failed(cause));
    ExtendRun(w, if e.ArmFails? then [e] else [e, TestAfterFailure(side)], Record(side));
  }

  predicate Delivers(e: Event, side: Side) {
    e == DeliveryReturns(side) || (e.DeliveryFails? && e.side == side)
  }

  /** How many packets the pump has read, and how many it has handed on, with or without success. */
  function Taken(events: seq<Event>, side: Side): nat {
    if events == [] then 0 else (if events[0] == ReadReturns(side, true) then 1 else 0) + Taken(events[1..], side)
  }

  function HandedOn(events: seq<Event>, side: Side): nat {
    if events == [] then 0 else (if Delivers(events[0], side) then 1 else 0) + HandedOn(events[1..], side)
  }

  function InHand(p: Pump): nat {
    if p.Delivering? then 1 else 0
  }

  /** In every schedule no packet is skipped: each one read has been handed on, or is the one being handed on. */
  lemma {:induction false} EveryPacketIsHandedOn(w: World, events: seq<Event>, side: Side)
    requires ValidRun(w, events)
    ensures InHand(PumpOf(w, side)) + Taken(events, side)
            == HandedOn(events, side) + InHand(PumpOf(Run(w, events), side))
    decreases |events|
  {
    if events != [] {
      EveryPacketIsHandedOn(Next(w, events[0]), events[1..], side);
    }
  }

  /** How often the deadline has been set, and how many reads of the tunnel have ended. */
  function Armed(events: seq<Event>): nat {
    if events == [] then 0 else (if events[0].Arm? then 1 else 0) + Armed(events[1..])
  }

  function ReadsEnded(events: seq<Event>): nat {
    if events == [] then 0
    else
      (if (events[0].ReadReturns? || events[0].ReadFails?) && events[0].side.Tunnel? then 1 else 0)
      + ReadsEnded(events[1..])
  }

  /** In every schedule each read of the tunnel has had its deadline set anew. */
  lemma {:induction false} EveryReadIsArmed(w: World, events: seq<Event>)
    requires ValidRun(w, events)
    ensures (if w.tunnel.Reading? then 1 else 0) + Armed(events)
            == ReadsEnded(events) + if Run(w, events).tunnel.Reading? then 1 else 0
    decreases |events|
  {
    if events != [] {
      EveryReadIsArmed(Next(w, events[0]), events[1..]);
    }
  }

  ghost predicate Reachable(w: World) {
    exists events: seq<Event> :: ValidRun(START, events) && Run(START, events) == w
  }

  lemma OneMoreEvent(w: World, e: Event)
    requires Reachable(w) && Enabled(w, e)
    ensures Reachable(Next(w, e))
  {
    hide Next, Enabled;
    var events: seq<Event> :| ValidRun(START, events) && Run(START, events) == w;
    ExtendRun(START, events, e);
  }

  lemma {:induction false} ExtendRun(w: World, events: seq<Event>, e: Event)
    requires ValidRun(w, events) && Enabled(Run(w, events), e)
    ensures ValidRun(w, events + [e]) && Run(w, events + [e]) == Next(Run(w, events), e)
    decreases |events|
  {
    hide Next, Enabled;
    if events == [] {
      assert events + [e] == [e];
      assert [e][1..] == [];
    } else {
      ExtendRun(Next(w, events[0]), events[1..], e);
      assert (events + [e])[1..] == events[1..] + [e];
    }
  }

  /** The exception does happen: the pump passes its test before the cancellation, Close closes the
      link, and the pump then finds that it cannot set the deadline. */
  lemma DeadlineExitRecordsTheTeardown()
    ensures exists w: World :: Reachable(w) && w.failure == Some(DeadlineOnClosedLink)
  {
    hide Reachable;
    NothingHappened();
    var w := START;
    OneMoreEvent(w, Test(Tunnel));
    w := Next(w, Test(Tunnel));
    OneMoreEvent(w, CloseStep);
    w := Next(w, CloseStep);
    OneMoreEvent(w, CloseStep);
    w := Next(w, CloseStep);
    OneMoreEvent(w, CloseStep);
    w := Next(w, CloseStep);
    OneMoreEvent(w, CloseStep);
    w := Next(w, CloseStep);
    OneMoreEvent(w, CloseStep);
    w := Next(w, CloseStep);
    assert w == START.(closer := LinkClosed, tunnel := Arming);
    OneMoreEvent(w, ArmFails(DeadlineOnClosedLink));
    w := Next(w, ArmFails(DeadlineOnClosedLink));
    OneMoreEvent(w, Record(Tunnel));
    w := Next(w, Record(Tunnel));
    assert w.failure == Some(DeadlineOnClosedLink);
  }

  /** A pump that is not about to arm its deadline when Close cancels never will be. */
  predicate Disarmed(w: World) {
    Cancelled(w) && !w.tunnel.Arming? && w.tunnel != Stopping(DeadlineOnClosedLink)
    && w.device != Stopping(DeadlineOnClosedLink) && w.failure != Some(DeadlineOnClosedLink)
    && w.tunnel != Failed(DeadlineOnClosedLink) && w.device != Failed(DeadlineOnClosedLink)
  }

  lemma {:induction false} DisarmedStaysQuiet(w: World, events: seq<Event>)
    requires Disarmed(w) && ValidRun(w, events)
    ensures Run(w, events).failure != Some(DeadlineOnClosedLink)
    decreases |events|
  {
    if events != [] {
      DisarmedStaysQuiet(Next(w, events[0]), events[1..]);
    }
  }

  /** Close closes the link under the pump that is about to arm its deadline. */
  lemma ArmedCanRecord(w: World) returns (events: seq<Event>)
    requires w.closer == ContextCancelled && w.tunnel.Arming? && w.doneClosed == 0
    ensures ValidRun(w, events) && Run(w, events).failure == Some(DeadlineOnClosedLink)
  {
    var closed := w.(closer := LinkClosed);
    var failed := closed.(tunnel := Stopping(DeadlineOnClosedLink));
    events := [];
    ExtendRun(w, events, CloseStep);
    events := events + [CloseStep];
    ExtendRun(w, events, CloseStep);
    events := events + [CloseStep];
    ExtendRun(w, events, CloseStep);
    events := events + [CloseStep];
    ExtendRun(w, events, CloseStep);
    events := events + [CloseStep];
    assert Run(w, events) == closed;
    ExtendRun(w, events, ArmFails(DeadlineOnClosedLink));
    events := events + [ArmFails(DeadlineOnClosedLink)];
    assert Run(w, events) == failed;
    ExtendRun(w, events, Record(Tunnel));
    events := events + [Record(Tunnel)];
  }

  /** Exactly when Close can be blamed for the failure it caused: at the moment it cancels, the tunnel pump
      has passed its test of the context and not yet set its deadline, and nothing has stopped before. */
  lemma TeardownIsRecordedIffArmed(before: seq<Event>)
    requires ValidRun(START, before) && Run(START, before).closer == ContextCancelled
    ensures var w := Run(START, before);
            (exists events :: ValidRun(w, events) && Run(w, events).failure == Some(DeadlineOnClosedLink))
            <==> w.tunnel.Arming? && w.doneClosed == 0
  {
    var w := Run(START, before);
    RunKeeps(START, before);
    if w.tunnel.Arming? && w.doneClosed == 0 {
      var events := ArmedCanRecord(w);
    } else {
      forall events | ValidRun(w, events)
        ensures Run(w, events).failure != Some(DeadlineOnClosedLink)
      {
        if w.doneClosed > 0 {
          FirstCauseStays(w, events);
        } else {
          DisarmedStaysQuiet(w, events);
        }
      }
    }
  }

  lemma NothingHappened()
    ensures Reachable(START)
  {
    assert ValidRun(START, []) && Run(START, []) == START;
  }

  // --- Close always returns ---

  /** Steps that need nothing from the network or the kernel but that a closed resource releases the
      calls blocked on it. */
  predicate Guaranteed(w: World, e: Event) {
    match e
    case ReadReturns(_, _) => false
    case ReadFails(side, cause) => cause.TornDown? && (side.Tunnel? || DeviceIsClosed(w))
    case DeliveryReturns(_) => false
    case DeliveryFails(side, cause) => cause.TornDown? && (side.Device? || DeviceIsClosed(w))
    case ArmFails(cause) => cause.DeadlineOnClosedLink?
    case _ => true
  }

  /** How far a pump still is from leaving, once the context is cancelled. */
  function Distance(p: Pump): nat {
    match p
    case Arming => 6
    case Reading => 5
    case Delivering => 4
    case Failed(_) => 3
    case Stopping(_) => 2
    case Top => 1
    case Exited => 0
  }

  function Remaining(w: World): nat {
    Rank(w.closer) + Distance(w.tunnel) + Distance(w.device)
  }

  /** Once Close has cancelled the context every step, of any thread, brings the end nearer. */
  lemma EveryStepCounts(w: World, e: Event)
    requires Cancelled(w) && Enabled(w, e)
    ensures Cancelled(Next(w, e)) && Remaining(Next(w, e)) < Remaining(w)
  {
  }

  lemma {:induction false} ClosingRunsAreShort(w: World, events: seq<Event>)
    requires Cancelled(w) && ValidRun(w, events)
    ensures |events| + Remaining(Run(w, events)) <= Remaining(w)
    decreases |events|
  {
    if events != [] {
      EveryStepCounts(w, events[0]);
      ClosingRunsAreShort(Next(w, events[0]), events[1..]);
    }
  }

  /** As long as Close has not returned, a guaranteed step is enabled: it is never stuck in its wait. */
  lemma CloseIsNeverStuck(w: World) returns (e: Event)
    requires Inv(w) && Cancelled(w) && !w.closer.Finished?
    ensures Enabled(w, e) && Guaranteed(w, e)
  {
    if !w.closer.Marked? {
      e := CloseStep;
    } else if !w.tunnel.Exited? {
      e := PumpStep(w, Tunnel);
    } else if !w.device.Exited? {
      e := PumpStep(w, Device);
    } else {
      e := CloseStep;
    }
  }

  lemma PumpStep(w: World, side: Side) returns (e: Event)
    requires w.closer.Marked? && !PumpOf(w, side).Exited? && (PumpOf(w, side).Arming? ==> side.Tunnel?)
    ensures Enabled(w, e) && Guaranteed(w, e)
  {
    match PumpOf(w, side) {
      case Top => e := Test(side);
      case Arming => e := Arm;
      case Reading => e := ReadFails(side, TornDown);
      case Delivering => e := DeliveryFails(side, TornDown);
      case Failed(_) => e := TestAfterFailure(side);
      case Stopping(_) => e := Record(side);
    }
  }

  ghost predicate Stalled(w: World) {
    forall e: Event :: Enabled(w, e) ==> !Guaranteed(w, e)
  }

  /** From the moment Close cancels, in every schedule: at most 18 more steps of any thread can happen,
      and when no guaranteed step is left Close has returned with both pumps gone and done closed. */
  lemma CloseReturns(before: seq<Event>, events: seq<Event>)
    requires ValidRun(START, before) && Cancelled(Run(START, before))
    requires ValidRun(Run(START, before), events)
    ensures |events| <= 18
    ensures var end := Run(Run(START, before), events);
            Stalled(end) ==> end.closer.Finished? && end.tunnel.Exited? && end.device.Exited? && end.doneClosed == 1
  {
    var w := Run(START, before);
    RunKeeps(START, before);
    RunKeeps(w, events);
    ClosingRunsAreShort(w, events);
    StaysCancelled(w, events);
    var end := Run(w, events);
    if Stalled(end) && !end.closer.Finished? {
      var e := CloseIsNeverStuck(end);
    }
  }

  lemma {:induction false} StaysCancelled(w: World, events: seq<Event>)
    requires Cancelled(w) && ValidRun(w, events)
    ensures Cancelled(Run(w, events))
    decreases |events|
  {
    if events != [] {
      EveryStepCounts(w, events[0]);
      StaysCancelled(Next(w, events[0]), events[1..]);
    }
  }
}
