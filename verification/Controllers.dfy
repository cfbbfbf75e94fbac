/** The desktop client's controller: a single-threaded actor and the workers that report to it.
    internal/client/state/controller.go and internal/client/state/snapshot.go. */
module Controllers {
  import opened Bytes
  import D = Daemons

  /** What the client is doing, as the user would say it. */
  datatype Phase = Unknown | NoDaemon | Disconnected | Authenticating | Connecting | Connected | Disconnecting

  /** ipc.Status: its state, absent in the zero value, and everything else the panel shows. */
  datatype Status = Status(state: Option<D.Phase>, details: string)

  const NO_STATUS := Status(None, "")

  datatype Snapshot = Snapshot(phase: Phase, status: Status, loginURL: string, err: string) {
    predicate Busy() {
      phase == Authenticating || phase == Connecting || phase == Disconnecting
    }
  }

  function PhaseOf(state: Option<D.Phase>): Phase {
    match state
    case Some(Connected) => Connected
    case Some(Connecting) => Connecting
    case Some(Disconnecting) => Disconnecting
    case Some(Disconnected) => Disconnected
    case Some(Error) => Disconnected
    case None => Unknown
  }

  /** The daemon's answer to a status request; a reply may come without a status. */
  datatype StatusReply = Unreachable(message: string) | Reply(status: Option<Status>)

  datatype CommandReply = TransportFailed(message: string) | Answered(ok: bool, error: string)

  datatype WorkError = Canceled | Failure(message: string)

  function CommandError(reply: CommandReply): Option<WorkError> {
    match reply
    case TransportFailed(message) => Some(Failure(message))
    case Answered(true, _) => None
    case Answered(false, error) =>
      Some(Failure(if error == "" then "the daemon refused the command without saying why" else error))
  }

  /** The fields that belong to the Run goroutine. A cancel function is known by the generation of the
      action it cancels. */
  datatype Fields = Fields(snap: Snapshot, working: bool, cancelWork: Option<nat>, generation: nat)

  const NEW_FIELDS := Fields(Snapshot(Unknown, NO_STATUS, "", ""), false, None, 0)

  /** What a worker posts under its generation. */
  datatype Body = SetURL(url: string) | LoggedIn | Finished(error: Option<WorkError>)

  /** The closures queued for the Run goroutine. */
  datatype Message = StartConnect | StartDisconnect | Cancel | Refresh | Stamped(generation: nat, body: Body)

  function AfterRefresh(f: Fields, reply: StatusReply): Fields {
    match reply
    case Unreachable(message) =>
      var snap := f.snap.(status := NO_STATUS);
      f.(snap := if f.working then snap else snap.(phase := NoDaemon, err := message))
    case Reply(status) =>
      var snap := if status.Some? then f.snap.(status := status.value) else f.snap;
      f.(snap := if f.working then snap else snap.(phase := PhaseOf(snap.status.state)))
  }

  function AfterStartConnect(f: Fields): Fields {
    if f.working then f
    else
      Fields(f.snap.(err := "", loginURL := "", phase := Authenticating), true,
             Some(f.generation + 1), f.generation + 1)
  }

  function AfterStartDisconnect(f: Fields): Fields {
    if f.working then f
    else Fields(f.snap.(err := "", phase := Disconnecting), true, f.cancelWork, f.generation + 1)
  }

  function AfterAbandon(f: Fields): Fields {
    if f.cancelWork.None? then f
    else Fields(f.snap.(loginURL := ""), false, None, f.generation + 1)
  }

  /** finish, up to its refresh. */
  function BeforeFinalRefresh(f: Fields, error: Option<WorkError>): Fields {
    var snap := f.snap.(loginURL := "");
    Fields(if error.Some? && error.value.Failure? then snap.(err := error.value.message) else snap,
           false, None, f.generation)
  }

  /** One message executed: the new fields, the snapshots emitted, whether the daemon was asked for its
      status. */
  datatype Execution = Execution(fields: Fields, emitted: seq<Snapshot>, polled: bool)

  function Emitting(f: Fields): Execution {
    Execution(f, [f.snap], false)
  }

  function Polling(f: Fields, reply: StatusReply): Execution {
    var f' := AfterRefresh(f, reply);
    Execution(f', [f'.snap], true)
  }

  /** A stamped message from an action that is no longer the current one. */
  predicate Stale(f: Fields, m: Message) {
    m.Stamped? && m.generation != f.generation
  }

  function Execute(f: Fields, m: Message, reply: StatusReply): Execution {
    match m
    case StartConnect => if f.working then Execution(f, [], false) else Emitting(AfterStartConnect(f))
    case StartDisconnect => if f.working then Execution(f, [], false) else Emitting(AfterStartDisconnect(f))
    case Cancel => if f.cancelWork.None? then Execution(f, [], false) else Polling(AfterAbandon(f), reply)
    case Refresh => Polling(f, reply)
    case Stamped(generation, body) =>
      if generation != f.generation then Execution(f, [], false)
      else
        match body
        case SetURL(url) => Emitting(f.(snap := f.snap.(loginURL := url)))
        case LoggedIn => Emitting(f.(snap := f.snap.(phase := Connecting, loginURL := "")))
        case Finished(error) => Polling(BeforeFinalRefresh(f, error), reply)
  }

  /** The object. Its status polls are answered by `daemon`, one answer per poll. */
  class Controller {
    const daemon: nat -> StatusReply
    var polls: nat
    var snap: Snapshot
    var working: bool
    var cancelWork: Option<nat>
    var generation: nat
    var emitted: seq<Snapshot>

    constructor (daemon: nat -> StatusReply)
      ensures View() == NEW_FIELDS && emitted == [] && polls == 0 && this.daemon == daemon
    {
      this.daemon, polls := daemon, 0;
      snap, working, cancelWork, generation := Snapshot(Unknown, NO_STATUS, "", ""), false, None, 0;
      emitted := [];
    }

    function View(): Fields
      reads this
    {
      Fields(snap, working, cancelWork, generation)
    }

    method Emit()
      modifies this`emitted
      ensures emitted == old(emitted) + [snap]
    {
      emitted := emitted + [snap];
    }

    method DoRefresh()
      modifies this`snap, this`emitted, this`polls
      ensures View() == AfterRefresh(old(View()), daemon(old(polls)))
      ensures emitted == old(emitted) + [snap] && polls == old(polls) + 1
    {
      var reply := daemon(polls);
      polls := polls + 1;
      if reply.Unreachable? {
        snap := snap.(status := NO_STATUS);
        if !working {
          snap := snap.(phase := NoDaemon, err := reply.message);
        }
        Emit();
        return;
      }
      if reply.status.Some? {
        snap := snap.(status := reply.status.value);
      }
      if !working {
        snap := snap.(phase := PhaseOf(snap.status.state));
      }
      Emit();
    }

    /** Reports the generation of the worker to start, if one is to be started. */
    method BeginConnect() returns (worker: Option<nat>)
      modifies this
      ensures View() == AfterStartConnect(old(View())) && polls == old(polls)
      ensures worker == if old(working) then None else Some(generation)
      ensures emitted == if old(working) then old(emitted) else old(emitted) + [snap]
    {
      if working {
        return None;
      }
      working := true;
      generation := generation + 1;
      cancelWork := Some(generation);
      snap := snap.(err := "");
      snap := snap.(loginURL := "");
      snap := snap.(phase := Authenticating);
      Emit();
      worker := Some(generation);
    }

    method BeginDisconnect() returns (worker: Option<nat>)
      modifies this
      ensures View() == AfterStartDisconnect(old(View())) && polls == old(polls)
      ensures worker == if old(working) then None else Some(generation)
      ensures emitted == if old(working) then old(emitted) else old(emitted) + [snap]
    {
      if working {
        return None;
      }
      working := true;
      generation := generation + 1;
      snap := snap.(err := "");
      snap := snap.(phase := Disconnecting);
      Emit();
      worker := Some(generation);
    }

    method AbandonWork() returns (abandoned: bool)
      modifies this`snap, this`working, this`cancelWork, this`generation
      ensures abandoned <==> old(cancelWork).Some?
      ensures View() == AfterAbandon(old(View()))
    {
      if cancelWork.None? {
        return false;
      }
      cancelWork := None;
      working := false;
      generation := generation + 1;
      snap := snap.(loginURL := "");
      abandoned := true;
    }

    method Finish(stamp: nat, error: Option<WorkError>)
      modifies this
      ensures var m, r := Stamped(stamp, Finished(error)), daemon(old(polls));
              var e := Execute(old(View()), m, r);
              && View() == e.fields && emitted == old(emitted) + e.emitted
              && polls == old(polls) + if e.polled then 1 else 0
    {
      if stamp != generation {
        return;
      }
      working := false;
      cancelWork := None;
      snap := snap.(loginURL := "");
      if error.Some? && error.value != Canceled {
        snap := snap.(err := error.value.message);
      }
      DoRefresh();
    }

    /** One closure taken from the queue. */
    method ExecuteMessage(m: Message) returns (worker: Option<nat>)
      modifies this
      ensures var e := Execute(old(View()), m, daemon(old(polls)));
              && View() == e.fields && emitted == old(emitted) + e.emitted
              && polls == old(polls) + if e.polled then 1 else 0
      ensures worker == if (m.StartConnect? || m.StartDisconnect?) && !old(working) then Some(generation) else None
    {
      worker := None;
      match m {
        case StartConnect => worker := BeginConnect();
        case StartDisconnect => worker := BeginDisconnect();
        case Cancel =>
          var abandoned := AbandonWork();
          if abandoned {
            DoRefresh();
          }
        case Refresh => DoRefresh();
        case Stamped(stamp, body) =>
          if stamp != generation {
            return;
          }
          match body {
            case SetURL(url) =>
              snap := snap.(loginURL := url);
              Emit();
            case LoggedIn =>
              snap := snap.(phase := Connecting);
              snap := snap.(loginURL := "");
              Emit();
            case Finished(error) => Finish(stamp, error);
          }
      }
    }
  }

  // --- Stale workers do not interfere ---

  datatype History = History(fields: Fields, emitted: seq<Snapshot>, polls: nat)

  /** A whole queue of messages, executed against a daemon that answers the k-th poll with daemon(k). */
  function ExecuteAll(f: Fields, messages: seq<Message>, daemon: nat -> StatusReply, polls: nat): History
    decreases |messages|
  {
    if messages == [] then History(f, [], polls)
    else
      var e := Execute(f, messages[0], daemon(polls));
      var rest := ExecuteAll(e.fields, messages[1..], daemon, polls + if e.polled then 1 else 0);
      rest.(emitted := e.emitted + rest.emitted)
  }

  /** The messages that are not stale at the moment they are executed. */
  function WithoutStale(f: Fields, messages: seq<Message>, daemon: nat -> StatusReply, polls: nat): seq<Message>
    decreases |messages|
  {
    if messages == [] then []
    else
      var e := Execute(f, messages[0], daemon(polls));
      (if Stale(f, messages[0]) then [] else [messages[0]])
      + WithoutStale(e.fields, messages[1..], daemon, polls + if e.polled then 1 else 0)
  }

  /** Deleting every message that is stale when its turn comes changes neither the snapshots the user
      sees, nor the fields, nor the polls made, for any queue and any daemon. */
  lemma {:induction false} StaleMessagesDoNotInterfere(
      f: Fields, messages: seq<Message>, daemon: nat -> StatusReply, polls: nat)
    ensures ExecuteAll(f, WithoutStale(f, messages, daemon, polls), daemon, polls)
            == ExecuteAll(f, messages, daemon, polls)
    ensures forall m :: m in WithoutStale(f, messages, daemon, polls) ==> m in messages
    decreases |messages|
  {
    hide Execute;
    if messages != [] {
      var m := messages[0];
      var e := Execute(f, m, daemon(polls));
      var polls' := polls + if e.polled then 1 else 0;
      StaleMessagesDoNotInterfere(e.fields, messages[1..], daemon, polls');
      var rest := WithoutStale(e.fields, messages[1..], daemon, polls');
      if Stale(f, m) {
        StaleDoesNothing(f, m, daemon(polls));
        assert WithoutStale(f, messages, daemon, polls) == rest;
        var later := ExecuteAll(f, messages[1..], daemon, polls).emitted;
        assert [] + later == later;
      } else {
        assert WithoutStale(f, messages, daemon, polls) == [m] + rest;
        assert ([m] + rest)[1..] == rest;
      }
    }
  }

  lemma StaleDoesNothing(f: Fields, m: Message, reply: StatusReply)
    requires Stale(f, m)
    ensures Execute(f, m, reply) == Execution(f, [], false)
  {
  }

  /** A queue without what one action posted. */
  function WithoutAction(messages: seq<Message>, generation: nat): seq<Message> {
    if messages == [] then []
    else
      (if messages[0].Stamped? && messages[0].generation == generation then [] else [messages[0]])
      + WithoutAction(messages[1..], generation)
  }

  /** Once an action has been abandoned, whatever it still posts, and whatever is posted around it, might
      as well not be in the queue: a number that has passed never comes back. */
  lemma {:induction false} AbandonedActionIsSilent(
      f: Fields, messages: seq<Message>, daemon: nat -> StatusReply, polls: nat, generation: nat)
    requires generation < f.generation
    ensures ExecuteAll(f, WithoutAction(messages, generation), daemon, polls) == ExecuteAll(f, messages, daemon, polls)
    decreases |messages|
  {
    assert messages != [] ==> f.generation <= Execute(f, messages[0], daemon(polls)).fields.generation;
    hide Execute;
    if messages != [] {
      var m := messages[0];
      var e := Execute(f, m, daemon(polls));
      var polls' := polls + if e.polled then 1 else 0;
      AbandonedActionIsSilent(e.fields, messages[1..], daemon, polls', generation);
      var rest := WithoutAction(messages[1..], generation);
      if m.Stamped? && m.generation == generation {
        StaleDoesNothing(f, m, daemon(polls));
        assert WithoutAction(messages, generation) == rest;
        var later := ExecuteAll(f, messages[1..], daemon, polls).emitted;
        assert [] + later == later;
      } else {
        assert WithoutAction(messages, generation) == [m] + rest;
        assert ([m] + rest)[1..] == rest;
      }
    }
  }
}
