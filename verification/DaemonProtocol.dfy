/** The daemon under concurrency: every interleaving of the critical sections of connect, disconnect,
    watch and Shutdown with the slow work done outside the lock. */
module DaemonProtocol {
  import opened Bytes
  import opened Daemons

  // --- Goroutines ---

  /** Where a goroutine stands between two critical sections. `disconnected` is a history variable: a
      disconnect ran since the attempt began. */
  datatype Task =
    | Dialing(disconnected: bool)
    | Dialed(result: DialResult, disconnected: bool)
    | AbortClosing(connection: nat)
    | AbortSettling(message: string)
    | DisconnectClosing(connection: nat)
    | DisconnectSettling(closeError: Option<string>)
    | Watching(connection: nat)
    | Woken(connection: nat)
    | LostClosing(connection: nat)
    | Returned

  /** The daemon, its goroutines, the cancelled watch contexts, how often each connection was closed,
      how many were ever opened, and whether the server still takes requests. */
  datatype World = World(
    d: Fields, tasks: seq<Task>, cancelled: set<nat>,
    closed: multiset<nat>, produced: nat, serving: bool)

  datatype Event =
    | Connect(request: Request)
    | DialReturns(task: nat, failure: Option<string>)
    | FinishConnect(task: nat)
    | CloseReturns(task: nat, failure: Option<string>)
    | SettleAbort(task: nat)
    | Disconnect
    | SettleDisconnect(task: nat)
    | WatchStops(task: nat)
    | WatchWakes(task: nat)
    | WatchLocks(task: nat, cause: Option<string>)
    | ServeReturns
    | Shutdown

  const START := World(NEW_FIELDS, [], {}, multiset{}, 0, true)

  /** A request the server has not answered yet. */
  predicate IsRequest(t: Task) {
    !t.Returned? && !t.Watching? && !t.Woken? && !t.LostClosing?
  }

  predicate InFlight(t: Task) {
    t.Dialing? || t.Dialed?
  }

  predicate Closing(t: Task) {
    t.AbortClosing? || t.DisconnectClosing? || t.LostClosing?
  }

  predicate Enabled(w: World, e: Event) {
    match e
    case Connect(_) => w.serving
    case Disconnect => w.serving
    case ServeReturns => w.serving && forall i :: 0 <= i < |w.tasks| ==> !IsRequest(w.tasks[i])
    case Shutdown => !w.serving
    case DialReturns(t, _) => t < |w.tasks| && w.tasks[t].Dialing?
    case FinishConnect(t) => t < |w.tasks| && w.tasks[t].Dialed?
    case CloseReturns(t, _) => t < |w.tasks| && Closing(w.tasks[t])
    case SettleAbort(t) => t < |w.tasks| && w.tasks[t].AbortSettling?
    case SettleDisconnect(t) => t < |w.tasks| && w.tasks[t].DisconnectSettling?
    case WatchStops(t) => t < |w.tasks| && w.tasks[t].Watching? && t in w.cancelled
    case WatchWakes(t) => t < |w.tasks| && w.tasks[t].Watching?
    case WatchLocks(t, _) => t < |w.tasks| && w.tasks[t].Woken?
  }

  function MarkDisconnected(t: Task): Task {
    if InFlight(t) then t.(disconnected := true) else t
  }

  function MarkAll(tasks: seq<Task>): seq<Task> {
    seq(|tasks|, i requires 0 <= i < |tasks| => MarkDisconnected(tasks[i]))
  }

  function RunDisconnect(w: World): World {
    var marked := MarkAll(w.tasks);
    var d := StartDisconnect(w.d);
    match PlanDisconnect(w.d)
    case CancelAttempt(_) => w.(d := d, tasks := marked)
    case NothingToClose(_) => w.(d := d, tasks := marked)
    case CloseConnection(c, watch) =>
      w.(d := d, tasks := marked + [DisconnectClosing(c)],
         cancelled := w.cancelled + if watch.Some? then {watch.value} else {})
  }

  function MessageOf(failure: Option<string>): string {
    if failure.Some? then failure.value else ""
  }

  function Next(w: World, e: Event, default: Gateway): World
    requires Enabled(w, e)
  {
    match e
    case Connect(request) =>
      if Refuse(w.d, default, request).Some? then w
      else w.(d := Begin(w.d, default, request, |w.tasks|), tasks := w.tasks + [Dialing(false)])
    case DialReturns(t, failure) =>
      (match failure
       case Some(message) => w.(tasks := w.tasks[t := Dialed(DialFailed(message), w.tasks[t].disconnected)])
       case None => w.(tasks := w.tasks[t := Dialed(Opened(w.produced), w.tasks[t].disconnected)],
                        produced := w.produced + 1))
    case FinishConnect(t) =>
      var result := w.tasks[t].result;
      var d := Finish(w.d, result, |w.tasks|);
      if Aborted(w.d) then
        w.(d := d,
           tasks := w.tasks[t := match result
                                 case Opened(c) => AbortClosing(c)
                                 case DialFailed(_) => AbortSettling("")])
      else
        (match result
         case DialFailed(_) => w.(d := d, tasks := w.tasks[t := Returned])
         case Opened(c) => w.(d := d, tasks := w.tasks[t := Returned] + [Watching(c)]))
    case CloseReturns(t, failure) =>
      var c := w.tasks[t].connection;
      var after := match w.tasks[t]
                   case AbortClosing(_) => AbortSettling(MessageOf(failure))
                   case DisconnectClosing(_) => DisconnectSettling(failure)
                   case _ => Returned;
      w.(tasks := w.tasks[t := after], closed := w.closed + multiset{c})
    case SettleAbort(t) =>
      w.(d := Settle(w.d, Disconnected, w.tasks[t].message), tasks := w.tasks[t := Returned])
    case Disconnect => RunDisconnect(w)
    case SettleDisconnect(t) =>
      w.(d := EndDisconnect(w.d, w.tasks[t].closeError), tasks := w.tasks[t := Returned])
    case WatchStops(t) => w.(tasks := w.tasks[t := Returned])
    case WatchWakes(t) => w.(tasks := w.tasks[t := Woken(w.tasks[t].connection)])
    case WatchLocks(t, cause) =>
      var c := w.tasks[t].connection;
      w.(d := LoseConnection(w.d, c, cause),
         tasks := w.tasks[t := if w.d.connection == Some(c) then LostClosing(c) else Returned])
    case ServeReturns => w.(serving := false)
    case Shutdown => RunDisconnect(w)
  }

  predicate ValidRun(w: World, events: seq<Event>, default: Gateway)
    decreases |events|
  {
    events == [] || (Enabled(w, events[0]) && ValidRun(Next(w, events[0], default), events[1..], default))
  }

  function Run(w: World, events: seq<Event>, default: Gateway): World
    requires ValidRun(w, events, default)
    decreases |events|
  {
    if events == [] then w else Run(Next(w, events[0], default), events[1..], default)
  }

  // --- Counting goroutines ---

  datatype Role = Attempting | AttemptingMarked | TearingDown | Owning(connection: nat)

  /** The goroutine alone is responsible for the connection. */
  predicate Owns(t: Task, c: nat) {
    match t
    case Dialed(Opened(x), _) => x == c
    case AbortClosing(x) => x == c
    case DisconnectClosing(x) => x == c
    case LostClosing(x) => x == c
    case _ => false
  }

  function Weight(r: Role, t: Task): nat {
    match r
    case Attempting => if InFlight(t) then 1 else 0
    case AttemptingMarked => if InFlight(t) && t.disconnected then 1 else 0
    case TearingDown =>
      if t.AbortClosing? || t.AbortSettling? || t.DisconnectClosing? || t.DisconnectSettling? then 1 else 0
    case Owning(c) => if Owns(t, c) then 1 else 0
  }

  function Tally(r: Role, tasks: seq<Task>): nat {
    if tasks == [] then 0 else Tally(r, tasks[..|tasks| - 1]) + Weight(r, tasks[|tasks| - 1])
  }

  /** In how many places a connection is: published, in the hands of a goroutine, closed. */
  function Places(w: World, c: nat): nat {
    (if w.d.connection == Some(c) then 1 else 0) + Tally(Owning(c), w.tasks) + w.closed[c]
  }

  lemma Appending(tasks: seq<Task>, t: Task)
    ensures forall r: Role :: Tally(r, tasks + [t]) == Tally(r, tasks) + Weight(r, t)
  {
    assert (tasks + [t])[..|tasks|] == tasks;
  }

  lemma {:induction false} ReplacingCounts(r: Role, tasks: seq<Task>, i: nat, t: Task)
    requires i < |tasks|
    ensures Tally(r, tasks[i := t]) + Weight(r, tasks[i]) == Tally(r, tasks) + Weight(r, t)
    ensures Tally(r, tasks) >= Weight(r, tasks[i])
    decreases |tasks|
  {
    hide Weight;
    var n := |tasks| - 1;
    if i == n {
      assert tasks[i := t][..n] == tasks[..n];
    } else {
      assert tasks[i := t][..n] == tasks[..n][i := t];
      ReplacingCounts(r, tasks[..n], i, t);
    }
  }

  lemma {:induction false} MarkingCounts(tasks: seq<Task>)
    ensures Tally(Attempting, MarkAll(tasks)) == Tally(Attempting, tasks)
    ensures Tally(AttemptingMarked, MarkAll(tasks)) == Tally(Attempting, tasks)
    ensures Tally(TearingDown, MarkAll(tasks)) == Tally(TearingDown, tasks)
    ensures forall c: nat :: Tally(Owning(c), MarkAll(tasks)) == Tally(Owning(c), tasks)
    decreases |tasks|
  {
    if tasks != [] {
      var n := |tasks| - 1;
      MarkingCounts(tasks[..n]);
      assert MarkAll(tasks)[..n] == MarkAll(tasks[..n]);
      assert MarkAll(tasks)[n] == MarkDisconnected(tasks[n]);
    }
  }

  lemma {:induction false} MarkedAreAttempts(tasks: seq<Task>)
    ensures Tally(AttemptingMarked, tasks) <= Tally(Attempting, tasks)
  {
    if tasks != [] {
      MarkedAreAttempts(tasks[..|tasks| - 1]);
    }
  }

  lemma {:induction false} OneOfEach(r: Role, tasks: seq<Task>, i: nat, j: nat)
    requires i < j < |tasks|
    ensures Tally(r, tasks) >= Weight(r, tasks[i]) + Weight(r, tasks[j])
  {
    hide Weight;
    var n := |tasks| - 1;
    if j == n {
      ReplacingCounts(r, tasks[..n], i, tasks[i]);
    } else {
      OneOfEach(r, tasks[..n], i, j);
    }
  }

  // --- The invariant ---

  /** Each connection ever opened is in exactly one place, and nowhere twice. */
  ghost predicate Conserved(w: World) {
    forall c: nat :: Places(w, c) == if c < w.produced then 1 else 0
  }

  predicate Counts(w: World) {
    && Tally(Attempting, w.tasks) == (if w.d.cancelConnect.Some? then 1 else 0)
    && Tally(Attempting, w.tasks) - Tally(AttemptingMarked, w.tasks) == (if w.d.state == Connecting then 1 else 0)
    && Tally(AttemptingMarked, w.tasks) + Tally(TearingDown, w.tasks) == (if w.d.state == Disconnecting then 1 else 0)
    && (w.d.state == Connected <==> w.d.connection.Some?)
  }

  predicate Pointers(w: World) {
    && (w.d.cancelConnect.Some? ==>
          w.d.cancelConnect.value < |w.tasks| && InFlight(w.tasks[w.d.cancelConnect.value]))
    && (w.d.connection.Some? ==>
          && w.d.watching.Some? && w.d.watching.value < |w.tasks|
          && w.d.watching.value !in w.cancelled
          && (w.tasks[w.d.watching.value] == Watching(w.d.connection.value)
              || w.tasks[w.d.watching.value] == Woken(w.d.connection.value)))
    && (forall t :: t in w.cancelled ==> t < |w.tasks|)
  }

  ghost predicate Inv(w: World) {
    Conserved(w) && Counts(w) && Pointers(w)
  }

  lemma StartHolds()
    ensures Inv(START)
  {
    assert forall c: nat :: Places(START, c) == 0;
  }

  lemma DisconnectKeeps(w: World)
    requires Inv(w)
    ensures Inv(RunDisconnect(w))
  {
    hide Tally, MarkAll;
    MarkingCounts(w.tasks);
    MarkingKeepsRoles(w.tasks);
    var w' := RunDisconnect(w);
    if PlanDisconnect(w.d).CloseConnection? {
      Appending(MarkAll(w.tasks), DisconnectClosing(w.d.connection.value));
    }
    forall c: nat
      ensures Places(w', c) == if c < w'.produced then 1 else 0
    {
      assert Places(w, c) == if c < w.produced then 1 else 0;
    }
  }

  lemma MarkingKeepsRoles(tasks: seq<Task>)
    ensures |MarkAll(tasks)| == |tasks|
    ensures forall i :: 0 <= i < |tasks| ==> MarkAll(tasks)[i] == MarkDisconnected(tasks[i])
  {
  }

  lemma ReplacedTask(tasks: seq<Task>, t: nat, task: Task)
    requires t < |tasks|
    ensures forall r: Role :: Tally(r, tasks[t := task]) + Weight(r, tasks[t]) == Tally(r, tasks) + Weight(r, task)
    ensures forall r: Role :: Tally(r, tasks) >= Weight(r, tasks[t])
  {
    forall r: Role
      ensures Tally(r, tasks[t := task]) + Weight(r, tasks[t]) == Tally(r, tasks) + Weight(r, task)
      ensures Tally(r, tasks) >= Weight(r, tasks[t])
    {
      ReplacingCounts(r, tasks, t, task);
    }
  }

  /** The attempt in flight is the one the daemon can cancel. */
  lemma AttemptIsTheOne(w: World, t: nat)
    requires Counts(w) && Pointers(w) && t < |w.tasks| && InFlight(w.tasks[t])
    ensures w.d.cancelConnect == Some(t)
  {
    ReplacingCounts(Attempting, w.tasks, t, w.tasks[t]);
    var c := w.d.cancelConnect.value;
    if c < t {
      OneOfEach(Attempting, w.tasks, c, t);
    } else if t < c {
      OneOfEach(Attempting, w.tasks, t, c);
    }
  }

  /** The attempt is aborted exactly when a disconnect ran since it began. */
  lemma AbortedIffDisconnected(w: World, t: nat)
    requires Inv(w) && t < |w.tasks| && InFlight(w.tasks[t])
    ensures Aborted(w.d) <==> w.tasks[t].disconnected
    ensures w.d.state == if w.tasks[t].disconnected then Disconnecting else Connecting
  {
    hide Tally, Conserved;
    AttemptIsTheOne(w, t);
    ReplacedTask(w.tasks, t, Returned);
    MarkedAreAttempts(w.tasks[t := Returned]);
  }

  lemma FinishKeeps(w: World, t: nat, default: Gateway)
    requires Inv(w) && Enabled(w, FinishConnect(t))
    ensures Inv(Next(w, FinishConnect(t), default))
  {
    hide Conserved, Counts, Pointers, Next;
    FinishConserves(w, t, default);
    FinishKeepsCounts(w, t, default);
  }

  lemma FinishKeepsCounts(w: World, t: nat, default: Gateway)
    requires Inv(w) && Enabled(w, FinishConnect(t))
    ensures Counts(Next(w, FinishConnect(t), default)) && Pointers(Next(w, FinishConnect(t), default))
  {
    hide Tally, Conserved;
    AttemptIsTheOne(w, t);
    AbortedIffDisconnected(w, t);
    var result := w.tasks[t].result;
    if Aborted(w.d) {
      ReplacedTask(w.tasks, t, if result.Opened? then AbortClosing(result.connection) else AbortSettling(""));
    } else {
      ReplacedTask(w.tasks, t, Returned);
      if result.Opened? {
        Appending(w.tasks[t := Returned], Watching(result.connection));
      }
    }
  }

  lemma FinishConserves(w: World, t: nat, default: Gateway)
    requires Inv(w) && Enabled(w, FinishConnect(t))
    ensures Conserved(Next(w, FinishConnect(t), default))
  {
    hide Tally;
    AttemptIsTheOne(w, t);
    AbortedIffDisconnected(w, t);
    var w' := Next(w, FinishConnect(t), default);
    var result := w.tasks[t].result;
    if Aborted(w.d) {
      ReplacedTask(w.tasks, t, if result.Opened? then AbortClosing(result.connection) else AbortSettling(""));
    } else {
      ReplacedTask(w.tasks, t, Returned);
      if result.Opened? {
        Appending(w.tasks[t := Returned], Watching(result.connection));
      }
    }
    forall c: nat
      ensures Places(w', c) == if c < w'.produced then 1 else 0
    {
      assert Places(w, c) == if c < w.produced then 1 else 0;
    }
  }

  predicate MovesOneTask(e: Event) {
    e.DialReturns? || e.CloseReturns? || e.SettleAbort? || e.SettleDisconnect? || e.WatchStops? || e.WatchWakes?
    || e.WatchLocks?
  }

  lemma OneTaskConserves(w: World, e: Event, default: Gateway)
    requires Inv(w) && MovesOneTask(e) && Enabled(w, e)
    ensures Conserved(Next(w, e, default))
  {
    hide Tally;
    var w' := Next(w, e, default);
    ReplacedTask(w.tasks, e.task, w'.tasks[e.task]);
    forall c: nat
      ensures Places(w', c) == if c < w'.produced then 1 else 0
    {
      assert Places(w, c) == if c < w.produced then 1 else 0;
    }
  }

  lemma OneTaskKeepsCounts(w: World, e: Event, default: Gateway)
    requires Inv(w) && MovesOneTask(e) && Enabled(w, e)
    ensures Counts(Next(w, e, default)) && Pointers(Next(w, e, default))
  {
    hide Counts, Pointers, Conserved, Next;
    if e.DialReturns? || e.CloseReturns? || e.SettleAbort? || e.SettleDisconnect? {
      WorkKeepsCounts(w, e, default);
    } else {
      WatchingKeepsCounts(w, e, default);
    }
  }

  lemma WorkKeepsCounts(w: World, e: Event, default: Gateway)
    requires Inv(w) && (e.DialReturns? || e.CloseReturns? || e.SettleAbort? || e.SettleDisconnect?) && Enabled(w, e)
    ensures Counts(Next(w, e, default)) && Pointers(Next(w, e, default))
  {
    hide Tally, Conserved;
    ReplacedTask(w.tasks, e.task, Next(w, e, default).tasks[e.task]);
  }

  lemma WatchingKeepsCounts(w: World, e: Event, default: Gateway)
    requires Inv(w) && (e.WatchStops? || e.WatchWakes? || e.WatchLocks?) && Enabled(w, e)
    ensures Counts(Next(w, e, default)) && Pointers(Next(w, e, default))
  {
    hide Tally, Conserved;
    ReplacedTask(w.tasks, e.task, Next(w, e, default).tasks[e.task]);
  }

  lemma ConnectKeeps(w: World, request: Request, default: Gateway)
    requires Inv(w) && w.serving
    ensures Inv(Next(w, Connect(request), default))
  {
    hide Tally;
    var w' := Next(w, Connect(request), default);
    Appending(w.tasks, Dialing(false));
    if w.d.cancelConnect.Some? {
      ReplacedTask(w.tasks, w.d.cancelConnect.value, Returned);
    }
    forall c: nat
      ensures Places(w', c) == if c < w'.produced then 1 else 0
    {
      assert Places(w, c) == if c < w.produced then 1 else 0;
    }
  }

  lemma StepKeeps(w: World, e: Event, default: Gateway)
    requires Inv(w) && Enabled(w, e)
    ensures Inv(Next(w, e, default))
  {
    if MovesOneTask(e) {
      hide Tally, Conserved, Counts, Pointers, Next;
      OneTaskConserves(w, e, default);
      OneTaskKeepsCounts(w, e, default);
    } else {
      match e {
        case Connect(request) => ConnectKeeps(w, request, default);
        case FinishConnect(t) => FinishKeeps(w, t, default);
        case Disconnect => DisconnectKeeps(w);
        case Shutdown => DisconnectKeeps(w);
        case ServeReturns => ServingIsApart(w);
      }
    }
  }

  lemma ServingIsApart(w: World)
    requires Inv(w)
    ensures Inv(w.(serving := false))
  {
    var w' := w.(serving := false);
    assert forall c: nat :: Places(w', c) == Places(w, c);
  }

  // --- Every reachable world ---

  lemma {:induction false} RunKeeps(w: World, events: seq<Event>, default: Gateway)
    requires Inv(w) && ValidRun(w, events, default)
    ensures Inv(Run(w, events, default))
    decreases |events|
  {
    hide Inv, Next, Enabled;
    if events != [] {
      StepKeeps(w, events[0], default);
      RunKeeps(Next(w, events[0], default), events[1..], default);
    }
  }

  ghost predicate Reachable(w: World, default: Gateway) {
    exists events: seq<Event> :: ValidRun(START, events, default) && Run(START, events, default) == w
  }

  lemma ReachableHolds(w: World, default: Gateway)
    requires Reachable(w, default)
    ensures Inv(w)
  {
    var events: seq<Event> :| ValidRun(START, events, default) && Run(START, events, default) == w;
    StartHolds();
    RunKeeps(START, events, default);
  }

  lemma {:induction false} SomeOf(r: Role, tasks: seq<Task>) returns (t: nat)
    requires Tally(r, tasks) > 0
    ensures t < |tasks| && Weight(r, tasks[t]) > 0
  {
    var n := |tasks| - 1;
    if Weight(r, tasks[n]) > 0 {
      t := n;
    } else {
      t := SomeOf(r, tasks[..n]);
    }
  }

  ghost predicate Unowned(w: World, c: nat) {
    forall t :: 0 <= t < |w.tasks| ==> !Owns(w.tasks[t], c)
  }

  ghost predicate OwnedOnce(w: World, c: nat) {
    exists t ::
      && 0 <= t < |w.tasks| && Owns(w.tasks[t], c)
      && (forall u :: 0 <= u < |w.tasks| && Owns(w.tasks[u], c) ==> u == t)
  }

  /** In every interleaving, a connection the daemon opened is in exactly one place: published, in the
      hands of exactly one goroutine, or closed. It is never closed twice, and one that is published
      or closed is in nobody's hands. */
  lemma ExactlyOnePlace(w: World, c: nat, default: Gateway)
    requires Reachable(w, default)
    ensures c < w.produced ==>
              (|| (w.d.connection == Some(c) && w.closed[c] == 0 && Unowned(w, c))
               || (w.d.connection != Some(c) && w.closed[c] == 1 && Unowned(w, c))
               || (w.d.connection != Some(c) && w.closed[c] == 0 && OwnedOnce(w, c)))
    ensures c >= w.produced ==>
              w.d.connection != Some(c) && w.closed[c] == 0 && Unowned(w, c)
  {
    ReachableHolds(w, default);
    assert Places(w, c) == if c < w.produced then 1 else 0;
    var r := Owning(c);
    forall t | 0 <= t < |w.tasks| && Owns(w.tasks[t], c)
      ensures Tally(r, w.tasks) >= 1
    {
      ReplacingCounts(r, w.tasks, t, w.tasks[t]);
    }
    if Tally(r, w.tasks) > 0 {
      var t := SomeOf(r, w.tasks);
      forall u | 0 <= u < |w.tasks| && Owns(w.tasks[u], c)
        ensures u == t
      {
        if u < t {
          OneOfEach(r, w.tasks, u, t);
        } else if t < u {
          OneOfEach(r, w.tasks, t, u);
        }
      }
    }
  }

  predicate IsTeardown(t: Task) {
    t.AbortClosing? || t.AbortSettling? || t.DisconnectClosing? || t.DisconnectSettling?
  }

  /** While a disconnect or an aborted attempt is being undone the daemon stays Disconnecting: nothing
      is published, no attempt is in flight, nobody else is tearing down, and every connect request is
      refused. So the unconditional writes that end a teardown only ever overwrite Disconnecting. */
  lemma TeardownIsExclusive(w: World, t: nat, request: Request, default: Gateway)
    requires Reachable(w, default)
    requires t < |w.tasks| && IsTeardown(w.tasks[t])
    ensures w.d.state == Disconnecting && w.d.connection == None && w.d.cancelConnect == None
    ensures forall u :: 0 <= u < |w.tasks| ==> !InFlight(w.tasks[u])
    ensures forall u :: 0 <= u < |w.tasks| && IsTeardown(w.tasks[u]) ==> u == t
    ensures Refuse(w.d, default, request).Some?
  {
    ReachableHolds(w, default);
    TeardownExcludes(w, t);
  }

  lemma TeardownExcludes(w: World, t: nat)
    requires Inv(w) && t < |w.tasks| && IsTeardown(w.tasks[t])
    ensures w.d.state == Disconnecting && w.d.connection == None && w.d.cancelConnect == None
    ensures forall u :: 0 <= u < |w.tasks| ==> !InFlight(w.tasks[u])
    ensures forall u :: 0 <= u < |w.tasks| && IsTeardown(w.tasks[u]) ==> u == t
  {
    ReplacingCounts(TearingDown, w.tasks, t, Returned);
    MarkedAreAttempts(w.tasks);
    forall u | 0 <= u < |w.tasks| && IsTeardown(w.tasks[u])
      ensures u == t
    {
      if u < t {
        OneOfEach(TearingDown, w.tasks, u, t);
      } else if t < u {
        OneOfEach(TearingDown, w.tasks, t, u);
      }
    }
    forall u | 0 <= u < |w.tasks|
      ensures !InFlight(w.tasks[u])
    {
      if InFlight(w.tasks[u]) {
        AbortedIffDisconnected(w, u);
        ReplacingCounts(AttemptingMarked, w.tasks, u, Returned);
      }
    }
  }

  /** Goroutines that will end by writing Disconnected: a teardown under way, or an attempt that a
      disconnect has aborted. */
  predicate OwesTeardown(t: Task) {
    IsTeardown(t) || (InFlight(t) && t.disconnected)
  }

  ghost predicate Somebody(w: World, p: Task -> bool) {
    exists t :: 0 <= t < |w.tasks| && p(w.tasks[t])
  }

  ghost predicate AtMostOne(w: World, p: Task -> bool) {
    forall t, u :: 0 <= t < u < |w.tasks| ==> !(p(w.tasks[t]) && p(w.tasks[u]))
  }

  /** Attempts that nobody has asked to stop. */
  predicate Unaborted(t: Task) {
    InFlight(t) && !t.disconnected
  }

  /** The fields under the lock say what goes on outside it: Connected exactly with a published
      connection, Connecting exactly with a live attempt, Disconnecting exactly with somebody who owes a
      teardown, a cancel function exactly with an attempt in flight, and never two of any. */
  lemma StateMeansWhatItSays(w: World, default: Gateway)
    requires Reachable(w, default)
    ensures w.d.state == Connected <==> w.d.connection.Some?
    ensures w.d.cancelConnect.Some? <==> Somebody(w, InFlight)
    ensures w.d.state == Connecting <==> Somebody(w, Unaborted)
    ensures w.d.state == Disconnecting <==> Somebody(w, OwesTeardown)
    ensures AtMostOne(w, InFlight) && AtMostOne(w, OwesTeardown)
  {
    hide Tally;
    ReachableHolds(w, default);
    forall t | 0 <= t < |w.tasks| && InFlight(w.tasks[t])
      ensures w.d.cancelConnect == Some(t)
      ensures w.d.state == if w.tasks[t].disconnected then Disconnecting else Connecting
    {
      AttemptIsTheOne(w, t);
      AbortedIffDisconnected(w, t);
    }
    forall t | 0 <= t < |w.tasks| && IsTeardown(w.tasks[t])
      ensures w.d.state == Disconnecting && w.d.cancelConnect == None
      ensures forall u :: 0 <= u < |w.tasks| && IsTeardown(w.tasks[u]) ==> u == t
    {
      TeardownIsExclusive(w, t, Request("", "", 0), default);
    }
    if w.d.cancelConnect.Some? {
      assert InFlight(w.tasks[w.d.cancelConnect.value]);
    }
    if w.d.state == Disconnecting && w.d.cancelConnect.None? {
      MarkedAreAttempts(w.tasks);
      var t := SomeOf(TearingDown, w.tasks);
      assert IsTeardown(w.tasks[t]);
    }
    if w.d.state == Connecting {
      MarkedAreAttempts(w.tasks);
      assert w.d.cancelConnect.Some?;
    }
  }

  /** Exactly when a request to connect is refused, and what for: it lacks a cookie; a connection is published or
      an attempt is in flight; a disconnect or an aborted attempt is being undone; it lacks a gateway. A lost
      connection that its watcher is still closing is not among the reasons. */
  lemma ConnectIsRefusedIff(w: World, request: Request, default: Gateway)
    requires Reachable(w, default)
    ensures var refusal := Refuse(w.d, default, request);
            && (refusal.Some?
                <==> || request.cookie == "" || (request.host == "" && default.host == "")
                     || w.d.connection.Some? || Somebody(w, InFlight) || Somebody(w, IsTeardown))
            && (refusal == Some(NoCookie) <==> request.cookie == "")
            && (refusal == Some(AlreadyConnected) <==>
                  request.cookie != "" && (w.d.connection.Some? || Somebody(w, Unaborted)))
            && (refusal == Some(StillDisconnecting) <==> request.cookie != "" && Somebody(w, OwesTeardown))
  {
    hide Reachable;
    StateMeansWhatItSays(w, default);
    if Somebody(w, OwesTeardown) {
      var t :| 0 <= t < |w.tasks| && OwesTeardown(w.tasks[t]);
      assert IsTeardown(w.tasks[t]) || InFlight(w.tasks[t]);
    }
    if Somebody(w, IsTeardown) {
      var t :| 0 <= t < |w.tasks| && IsTeardown(w.tasks[t]);
      TeardownIsExclusive(w, t, request, default);
    }
    if Somebody(w, InFlight) {
      var t :| 0 <= t < |w.tasks| && InFlight(w.tasks[t]);
      assert w.tasks[t].disconnected ==> OwesTeardown(w.tasks[t]);
    }
  }

  /** Exactly what a disconnect finds to do: stop the attempt in flight, close the published connection with its
      watcher, or nothing; and that is an error unless a failure has been reported or a teardown is under way. */
  lemma DisconnectDoes(w: World, default: Gateway)
    requires Reachable(w, default)
    ensures var d := RunDisconnect(w).d;
            match PlanDisconnect(w.d)
            case CancelAttempt(t) =>
              t < |w.tasks| && InFlight(w.tasks[t]) && d == w.d.(state := Disconnecting)
            case CloseConnection(c, watch) =>
              && w.d.connection == Some(c) && !Somebody(w, InFlight) && watch.Some? && watch.value < |w.tasks|
              && watch.value !in w.cancelled && watch.value in RunDisconnect(w).cancelled
              && (w.tasks[watch.value] == Watching(c) || w.tasks[watch.value] == Woken(c))
              && d == w.d.(state := Disconnecting, connection := None, watching := None)
            case NothingToClose(notConnected) =>
              && w.d.connection.None? && !Somebody(w, InFlight) && d == w.d
              && (notConnected <==> w.d.state != Error && !Somebody(w, IsTeardown))
  {
    hide Tally, Conserved;
    ReachableHolds(w, default);
    StateMeansWhatItSays(w, default);
    if Somebody(w, IsTeardown) {
      var t :| 0 <= t < |w.tasks| && IsTeardown(w.tasks[t]);
      assert OwesTeardown(w.tasks[t]);
    }
    if Somebody(w, OwesTeardown) {
      var t :| 0 <= t < |w.tasks| && OwesTeardown(w.tasks[t]);
      assert IsTeardown(w.tasks[t]) || InFlight(w.tasks[t]);
    }
  }

  /** A teardown ends in Disconnected, without the daemon having been Connected on the way. */
  lemma TeardownEndsDisconnected(w: World, t: nat, e: Event, default: Gateway)
    requires Reachable(w, default) && Enabled(w, e)
    requires t < |w.tasks| && IsTeardown(w.tasks[t])
    ensures var w' := Next(w, e, default);
            if IsTeardown(w'.tasks[t]) then w'.d.state == Disconnecting && w'.d.connection == None
            else w'.tasks[t] == Returned && w'.d.state == Disconnected && w'.d.connection == None
                 && (e == SettleAbort(t) || e == SettleDisconnect(t))
  {
    var w' := Next(w, e, default);
    if e.Connect? {
      TeardownIsExclusive(w, t, e.request, default);
    } else {
      TeardownIsExclusive(w, t, Request("", "", 0), default);
    }
    ReachableHolds(w, default);
    TeardownStep(w, t, e, default);
  }

  lemma TeardownStep(w: World, t: nat, e: Event, default: Gateway)
    requires Inv(w) && Enabled(w, e)
    requires t < |w.tasks| && IsTeardown(w.tasks[t])
    requires w.d.state == Disconnecting && w.d.connection == None && w.d.cancelConnect == None
    requires forall u :: 0 <= u < |w.tasks| ==> !InFlight(w.tasks[u])
    requires forall u :: 0 <= u < |w.tasks| && IsTeardown(w.tasks[u]) ==> u == t
    ensures var w' := Next(w, e, default);
            if IsTeardown(w'.tasks[t]) then w'.d.state == Disconnecting && w'.d.connection == None
            else w'.tasks[t] == Returned && w'.d.state == Disconnected && w'.d.connection == None
                 && (e == SettleAbort(t) || e == SettleDisconnect(t))
  {
    hide Inv;
    if e.Disconnect? || e.Shutdown? {
      MarkingKeepsRoles(w.tasks);
    }
  }

  // --- Disconnect wins ---

  predicate IsDisconnect(e: Event) {
    e.Disconnect? || e.Shutdown?
  }

  predicate SomeDisconnect(events: seq<Event>) {
    exists k | 0 <= k < |events| :: IsDisconnect(events[k])
  }

  /** What one event does to a goroutine that is or was an attempt. */
  lemma AttemptAfterEvent(w: World, t: nat, e: Event, default: Gateway)
    requires t < |w.tasks| && Enabled(w, e)
    ensures var w' := Next(w, e, default);
            && t < |w'.tasks|
            && (InFlight(w'.tasks[t]) ==>
                  InFlight(w.tasks[t]) && w'.tasks[t].disconnected == (w.tasks[t].disconnected || IsDisconnect(e)))
  {
    if IsDisconnect(e) {
      MarkingKeepsRoles(w.tasks);
    }
  }

  lemma {:induction false} MarkMeansDisconnect(w: World, t: nat, events: seq<Event>, default: Gateway)
    requires t < |w.tasks| && ValidRun(w, events, default)
    ensures var end := Run(w, events, default);
            && t < |end.tasks|
            && (InFlight(end.tasks[t]) ==>
                  && InFlight(w.tasks[t])
                  && end.tasks[t].disconnected == (w.tasks[t].disconnected || SomeDisconnect(events)))
    decreases |events|
  {
    hide Next, Enabled, IsDisconnect;
    if events != [] {
      AttemptAfterEvent(w, t, events[0], default);
      MarkMeansDisconnect(Next(w, events[0], default), t, events[1..], default);
      assert SomeDisconnect(events) <==> IsDisconnect(events[0]) || SomeDisconnect(events[1..]) by {
        SomeDisconnectFirst(events);
      }
    }
  }

  lemma SomeDisconnectFirst(events: seq<Event>)
    requires events != []
    ensures SomeDisconnect(events) <==> IsDisconnect(events[0]) || SomeDisconnect(events[1..])
  {
    if SomeDisconnect(events) && !IsDisconnect(events[0]) {
      var k :| 0 <= k < |events| && IsDisconnect(events[k]);
      assert IsDisconnect(events[1..][k - 1]);
    }
    if SomeDisconnect(events[1..]) {
      var k :| 0 <= k < |events[1..]| && IsDisconnect(events[1..][k]);
      assert IsDisconnect(events[k + 1]);
    }
  }

  /** An attempt is aborted if and only if a disconnect ran between its beginning and its end, whatever
      else ran in between. An aborted attempt is not published, even when it won the race and opened a
      connection: that connection is handed over to be closed. */
  lemma DisconnectWins(w: World, request: Request, events: seq<Event>, default: Gateway)
    requires Reachable(w, default) && w.serving && Refuse(w.d, default, request).None?
    requires ValidRun(Next(w, Connect(request), default), events, default)
    requires Enabled(Run(Next(w, Connect(request), default), events, default), FinishConnect(|w.tasks|))
    ensures var t := |w.tasks|;
            var before := Run(Next(w, Connect(request), default), events, default);
            var after := Next(before, FinishConnect(t), default);
            var result := before.tasks[t].result;
            && (SomeDisconnect(events) <==> Aborted(before.d))
            && (SomeDisconnect(events) ==>
                  && after.d.state == Disconnecting && after.d.connection == None
                  && (result.Opened? ==> after.tasks[t] == AbortClosing(result.connection)))
            && (!SomeDisconnect(events) ==>
                  && after.tasks[t] == Returned
                  && (result.Opened? ==> after.d.state == Connected && after.d.connection == Some(result.connection))
                  && (result.DialFailed? ==> after.d.state == Error && after.d.connection == None))
  {
    var t := |w.tasks|;
    var begun := Next(w, Connect(request), default);
    ReachableHolds(w, default);
    StepKeeps(w, Connect(request), default);
    RunKeeps(begun, events, default);
    MarkMeansDisconnect(begun, t, events, default);
    var before := Run(begun, events, default);
    AbortedIffDisconnected(before, t);
  }

  // --- Closed connections, watchers, and the exception ---

  lemma {:induction false} ClosedStaysClosed(w: World, c: nat, events: seq<Event>, default: Gateway)
    requires Inv(w) && ValidRun(w, events, default) && w.closed[c] > 0
    ensures var end := Run(w, events, default);
            && end.closed[c] == 1 && end.d.connection != Some(c)
            && forall t :: 0 <= t < |end.tasks| ==> !Owns(end.tasks[t], c)
    decreases |events|
  {
    if events == [] {
      assert Places(w, c) == if c < w.produced then 1 else 0;
      forall t | 0 <= t < |w.tasks|
        ensures !Owns(w.tasks[t], c)
      {
        ReplacingCounts(Owning(c), w.tasks, t, w.tasks[t]);
      }
    } else {
      StepKeeps(w, events[0], default);
      ClosedStaysClosed(Next(w, events[0], default), c, events[1..], default);
    }
  }

  /** A watcher changes the daemon only when its own connection is the published one, and then the daemon was
      Connected; what it leaves is Error with the cause, if there was one, and otherwise Disconnected with what
      was said before. A published connection always has a watcher that was not cancelled. */
  lemma WatchersAreHarmless(w: World, t: nat, cause: Option<string>, default: Gateway)
    requires Reachable(w, default)
    requires Enabled(w, WatchLocks(t, cause))
    ensures var w' := Next(w, WatchLocks(t, cause), default);
            var c := w.tasks[t].connection;
            if w.d.connection != Some(c) then w'.d == w.d && w'.tasks[t] == Returned
            else
              && w.d.state == Connected && w'.tasks[t] == LostClosing(c) && w'.d.connection == None
              && w'.d.cancelConnect == None && w'.d.gateway == w.d.gateway
              && match cause
                 case Some(message) => w'.d.state == Error && w'.d.lastError == message
                 case None => w'.d.state == Disconnected && w'.d.lastError == w.d.lastError
    ensures w.d.connection.Some? ==>
              exists u :: 0 <= u < |w.tasks| && u !in w.cancelled
                          && (w.tasks[u] == Watching(w.d.connection.value) || w.tasks[u] == Woken(w.d.connection.value))
  {
    ReachableHolds(w, default);
  }

  predicate Watches(t: Task) {
    t.Watching? || t.Woken?
  }

  /** A watcher whose context is not cancelled is that of the published connection, a connection has one at most, and
      none before it is published. */
  predicate WatchersBelong(w: World) {
    && (forall t :: t in w.cancelled ==> t < |w.tasks|)
    && (forall t :: 0 <= t < |w.tasks| && Watches(w.tasks[t]) ==>
          && w.tasks[t].connection < w.produced
          && (t !in w.cancelled ==> w.d.connection == Some(w.tasks[t].connection))
          && (w.d.connection == Some(w.tasks[t].connection) ==> w.d.watching == Some(t)))
    && (forall t, u :: 0 <= t < |w.tasks| && 0 <= u < |w.tasks| && Watches(w.tasks[t]) && w.tasks[u].Dialed? ==>
          w.tasks[u].result != Opened(w.tasks[t].connection))
  }

  lemma StepKeepsWatchers(w: World, e: Event, default: Gateway)
    requires Inv(w) && WatchersBelong(w) && Enabled(w, e)
    ensures WatchersBelong(Next(w, e, default))
  {
    hide Inv, WatchersBelong;
    match e
    case Connect(request) => RequestKeepsWatchers(w, request, default);
    case FinishConnect(t) => FinishKeepsWatchers(w, t, default);
    case Disconnect => DisconnectKeepsWatchers(w);
    case Shutdown => DisconnectKeepsWatchers(w);
    case ServeReturns => assert WatchersBelong(w.(serving := false)) by { ServingKeepsWatchers(w); }
    case WatchLocks(t, cause) => LockKeepsWatchers(w, t, cause, default);
    case WatchStops(_) => WatchingKeepsWatchers(w, e, default);
    case WatchWakes(_) => WatchingKeepsWatchers(w, e, default);
    case DialReturns(t, failure) => DialKeepsWatchers(w, t, failure, default);
    case _ => ClosingKeepsWatchers(w, e, default);
  }

  lemma DialKeepsWatchers(w: World, t: nat, failure: Option<string>, default: Gateway)
    requires WatchersBelong(w) && Enabled(w, DialReturns(t, failure))
    ensures WatchersBelong(Next(w, DialReturns(t, failure), default))
  {
  }

  lemma ServingKeepsWatchers(w: World)
    requires WatchersBelong(w)
    ensures WatchersBelong(w.(serving := false))
  {
  }

  lemma RequestKeepsWatchers(w: World, request: Request, default: Gateway)
    requires Inv(w) && WatchersBelong(w) && w.serving
    ensures WatchersBelong(Next(w, Connect(request), default))
  {
    hide Tally, Conserved;
  }

  lemma LockKeepsWatchers(w: World, t: nat, cause: Option<string>, default: Gateway)
    requires WatchersBelong(w) && Enabled(w, WatchLocks(t, cause))
    ensures WatchersBelong(Next(w, WatchLocks(t, cause), default))
  {
  }

  lemma WatchingKeepsWatchers(w: World, e: Event, default: Gateway)
    requires WatchersBelong(w) && (e.WatchStops? || e.WatchWakes?) && Enabled(w, e)
    ensures WatchersBelong(Next(w, e, default))
  {
  }

  lemma ClosingKeepsWatchers(w: World, e: Event, default: Gateway)
    requires WatchersBelong(w) && (e.CloseReturns? || e.SettleAbort? || e.SettleDisconnect?) && Enabled(w, e)
    ensures WatchersBelong(Next(w, e, default))
  {
  }

  lemma DisconnectKeepsWatchers(w: World)
    requires Inv(w) && WatchersBelong(w)
    ensures WatchersBelong(RunDisconnect(w))
  {
    hide Tally, MarkAll, Conserved;
    MarkingKeepsRoles(w.tasks);
  }

  lemma FinishKeepsWatchers(w: World, t: nat, default: Gateway)
    requires Inv(w) && WatchersBelong(w) && Enabled(w, FinishConnect(t))
    ensures WatchersBelong(Next(w, FinishConnect(t), default))
  {
    hide Tally;
    OnlyAttempt(w, t);
    AbortedIffDisconnected(w, t);
    if w.tasks[t].result.Opened? {
      var c := w.tasks[t].result.connection;
      ReplacingCounts(Owning(c), w.tasks, t, Returned);
      assert Places(w, c) == if c < w.produced then 1 else 0;
    }
  }

  lemma {:induction false} RunKeepsWatchers(w: World, events: seq<Event>, default: Gateway)
    requires Inv(w) && WatchersBelong(w) && ValidRun(w, events, default)
    ensures WatchersBelong(Run(w, events, default))
    decreases |events|
  {
    hide Inv, Next, Enabled, WatchersBelong;
    if events != [] {
      StepKeeps(w, events[0], default);
      StepKeepsWatchers(w, events[0], default);
      RunKeepsWatchers(Next(w, events[0], default), events[1..], default);
    }
  }

  /** After every run: no watcher is left to itself. One that still watches or has woken watches the published
      connection, unless a disconnect has cancelled it; so there is one at most. */
  lemma NoWatcherIsForgotten(events: seq<Event>, t: nat, default: Gateway)
    requires ValidRun(START, events, default)
    requires var w := Run(START, events, default);
             t < |w.tasks| && Watches(w.tasks[t])
    ensures var w := Run(START, events, default);
            t in w.cancelled || (w.d.connection == Some(w.tasks[t].connection) && w.d.watching == Some(t))
  {
    hide Inv, Run;
    StartHolds();
    RunKeepsWatchers(START, events, default);
  }

  // --- What the daemon reports ---

  /** What has been heard, from the outside alone: the request last accepted, what its dial has said, whether it
      has failed to connect or lost its connection, the message to show, and what the close under way has said. */
  datatype Report = Report(
    request: Option<Request>, dial: Option<string>, failed: bool, message: string, closing: Option<string>)

  const NOTHING_HEARD := Report(None, None, false, "", None)

  function Hear(r: Report, w: World, e: Event, default: Gateway): Report
    requires Enabled(w, e)
  {
    match e
    case Connect(request) =>
      if Refuse(w.d, default, request).Some? then r else Report(Some(request), None, false, "", None)
    case DialReturns(_, failure) => r.(dial := failure)
    case FinishConnect(t) =>
      if r.dial.Some? && !w.tasks[t].disconnected then r.(failed := true, message := r.dial.value) else r
    case WatchLocks(t, Some(message)) =>
      if w.d.connection == Some(w.tasks[t].connection) then r.(failed := true, message := message) else r
    case CloseReturns(t, Some(message)) => if IsTeardown(w.tasks[t]) then r.(closing := Some(message)) else r
    case SettleAbort(_) => r.(message := MessageOf(r.closing))
    case SettleDisconnect(_) => r.(message := MessageOf(r.closing))
    case _ => r
  }

  function HearAll(r: Report, w: World, events: seq<Event>, default: Gateway): Report
    requires ValidRun(w, events, default)
    decreases |events|
  {
    if events == [] then r
    else HearAll(Hear(r, w, events[0], default), Next(w, events[0], default), events[1..], default)
  }

  /** The gateway of a request, each half from the request if it names one. */
  predicate IsGatewayOf(g: Gateway, request: Request, default: Gateway) {
    && g.host == (if request.host == "" then default.host else request.host)
    && g.port == (if request.port == 0 then default.port else request.port)
  }

  predicate Reported(r: Report, w: World, default: Gateway) {
    && (w.d.state == Error <==> r.failed)
    && w.d.lastError == r.message
    && (w.d.gateway.Some? <==> r.request.Some?)
    && (r.request.Some? ==> IsGatewayOf(w.d.gateway.value, r.request.value, default))
    && (w.d.state == Connecting || w.d.state == Connected || w.d.state == Disconnecting ==> r.message == "")
    && (w.d.state == Connecting || w.d.state == Connected ==> r.closing.None?)
    && (forall t :: 0 <= t < |w.tasks| ==>
          match w.tasks[t]
          case Dialing(true) => r.closing.None?
          case Dialed(Opened(_), disconnected) => r.dial.None? && (disconnected ==> r.closing.None?)
          case Dialed(DialFailed(m), disconnected) => r.dial == Some(m) && (disconnected ==> r.closing.None?)
          case AbortClosing(_) => r.closing.None?
          case DisconnectClosing(_) => r.closing.None?
          case AbortSettling(message) => message == MessageOf(r.closing)
          case DisconnectSettling(closeError) => closeError == r.closing
          case _ => true)
  }

  lemma HearingOneTask(r: Report, w: World, e: Event, default: Gateway)
    requires Inv(w) && Reported(r, w, default) && Enabled(w, e)
    requires e.CloseReturns? || e.SettleAbort? || e.SettleDisconnect?
    ensures Reported(Hear(r, w, e, default), Next(w, e, default), default)
  {
    hide Tally, Conserved, Pointers, Refuse, Counts;
    if IsTeardown(w.tasks[e.task]) {
      TeardownExcludes(w, e.task);
    }
  }

  lemma HearingADial(r: Report, w: World, t: nat, failure: Option<string>, default: Gateway)
    requires Inv(w) && Reported(r, w, default) && Enabled(w, DialReturns(t, failure))
    ensures Reported(Hear(r, w, DialReturns(t, failure), default), Next(w, DialReturns(t, failure), default), default)
  {
    hide Tally, Conserved, Pointers, Refuse, Counts;
    OnlyAttempt(w, t);
  }

  lemma OnlyAttempt(w: World, t: nat)
    requires Inv(w) && t < |w.tasks| && InFlight(w.tasks[t])
    ensures forall u :: 0 <= u < |w.tasks| && InFlight(w.tasks[u]) ==> u == t
  {
    hide Tally, Conserved;
    forall u | 0 <= u < |w.tasks| && InFlight(w.tasks[u]) ensures u == t {
      AttemptIsTheOne(w, u);
      AttemptIsTheOne(w, t);
    }
  }

  lemma HearingAWatcher(r: Report, w: World, e: Event, default: Gateway)
    requires Inv(w) && Reported(r, w, default) && Enabled(w, e)
    requires e.WatchStops? || e.WatchWakes? || e.WatchLocks?
    ensures Reported(Hear(r, w, e, default), Next(w, e, default), default)
  {
    hide Tally, Conserved, Pointers, Refuse;
  }

  lemma HearingTheEnd(r: Report, w: World, t: nat, default: Gateway)
    requires Inv(w) && Reported(r, w, default) && Enabled(w, FinishConnect(t))
    ensures Reported(Hear(r, w, FinishConnect(t), default), Next(w, FinishConnect(t), default), default)
  {
    hide Tally, Conserved, Pointers, Refuse;
    AbortedIffDisconnected(w, t);
  }

  lemma NobodyTearsDown(w: World)
    requires Inv(w) && w.d.state != Disconnecting
    ensures forall t :: 0 <= t < |w.tasks| ==>
              && !IsTeardown(w.tasks[t])
              && (InFlight(w.tasks[t]) ==> w.d.state == Connecting && !w.tasks[t].disconnected)
  {
    hide Tally, Conserved;
    forall t | 0 <= t < |w.tasks|
      ensures !IsTeardown(w.tasks[t])
      ensures InFlight(w.tasks[t]) ==> w.d.state == Connecting && !w.tasks[t].disconnected
    {
      if IsTeardown(w.tasks[t]) {
        TeardownExcludes(w, t);
      } else if InFlight(w.tasks[t]) {
        AbortedIffDisconnected(w, t);
      }
    }
  }

  lemma HearingARequest(r: Report, w: World, request: Request, default: Gateway)
    requires Inv(w) && Reported(r, w, default) && w.serving
    ensures Reported(Hear(r, w, Connect(request), default), Next(w, Connect(request), default), default)
  {
    hide Tally, Conserved, Pointers, Counts;
    if w.d.state != Disconnecting {
      NobodyTearsDown(w);
    }
  }

  lemma HearingADisconnect(r: Report, w: World, default: Gateway)
    requires Inv(w) && Reported(r, w, default)
    ensures Reported(r, RunDisconnect(w), default)
  {
    hide Tally, Conserved, MarkAll;
    MarkingKeepsRoles(w.tasks);
    forall t | 0 <= t < |w.tasks| && InFlight(w.tasks[t])
      ensures w.d.state == if w.tasks[t].disconnected then Disconnecting else Connecting
    {
      AbortedIffDisconnected(w, t);
    }
  }

  lemma HearingStep(r: Report, w: World, e: Event, default: Gateway)
    requires Inv(w) && Reported(r, w, default) && Enabled(w, e)
    ensures Reported(Hear(r, w, e, default), Next(w, e, default), default)
  {
    match e
    case Connect(request) => HearingARequest(r, w, request, default);
    case Disconnect => hide Reported; HearingADisconnect(r, w, default);
    case Shutdown => hide Reported; HearingADisconnect(r, w, default);
    case ServeReturns =>
    case DialReturns(t, failure) => HearingADial(r, w, t, failure, default);
    case FinishConnect(t) => HearingTheEnd(r, w, t, default);
    case WatchStops(_) => HearingAWatcher(r, w, e, default);
    case WatchWakes(_) => HearingAWatcher(r, w, e, default);
    case WatchLocks(_, _) => HearingAWatcher(r, w, e, default);
    case _ => HearingOneTask(r, w, e, default);
  }

  lemma {:induction false} RunReports(r: Report, w: World, events: seq<Event>, default: Gateway)
    requires Inv(w) && Reported(r, w, default) && ValidRun(w, events, default)
    ensures Reported(HearAll(r, w, events, default), Run(w, events, default), default)
    decreases |events|
  {
    hide Inv, Next, Enabled, Hear, Reported;
    if events != [] {
      var e := events[0];
      StepKeeps(w, e, default);
      HearingStep(r, w, e, default);
      RunReports(Hear(r, w, e, default), Next(w, e, default), events[1..], default);
    }
  }

  /** After every run, the daemon reports Error exactly when the last accepted request failed to connect or lost
      its connection for a cause, with that message; the other message there can be is that of a close that
      failed; and the gateway is the one asked for. */
  lemma StatusTellsWhatHappened(events: seq<Event>, default: Gateway)
    requires ValidRun(START, events, default)
    ensures var d := Run(START, events, default).d;
            var r := HearAll(NOTHING_HEARD, START, events, default);
            && (d.state == Error <==> r.failed)
            && d.lastError == r.message
            && (d.gateway.Some? <==> r.request.Some?)
            && (r.request.Some? ==> IsGatewayOf(d.gateway.value, r.request.value, default))
  {
    hide Inv, Run, HearAll;
    StartHolds();
    NothingHeardYet(default);
    RunReports(NOTHING_HEARD, START, events, default);
  }

  lemma NothingHeardYet(default: Gateway)
    ensures Reported(NOTHING_HEARD, START, default)
  {
  }

  const A_REQUEST := Request("cookie", "gateway", 443)

  /** The exclusion does not extend to lost connections: their watcher leaves the Connected state
      before it closes them, so a new attempt can start dialing in the meantime. */
  lemma LostConnectionDoesNotHoldBackConnect(default: Gateway)
    ensures exists w: World ::
              && Reachable(w, default) && |w.tasks| == 3
              && w.tasks[1] == LostClosing(0) && w.tasks[2] == Dialing(false) && w.closed[0] == 0
  {
    var w1 := Next(START, Connect(A_REQUEST), default);
    StartIsReachable(default);
    OneMoreEvent(START, Connect(A_REQUEST), default);
    var w2 := Next(w1, DialReturns(0, None), default);
    OneMoreEvent(w1, DialReturns(0, None), default);
    var w3 := Next(w2, FinishConnect(0), default);
    OneMoreEvent(w2, FinishConnect(0), default);
    var w4 := Next(w3, WatchWakes(1), default);
    OneMoreEvent(w3, WatchWakes(1), default);
    var w5 := Next(w4, WatchLocks(1, None), default);
    OneMoreEvent(w4, WatchLocks(1, None), default);
    var w6 := Next(w5, Connect(A_REQUEST), default);
    OneMoreEvent(w5, Connect(A_REQUEST), default);
    assert w6.tasks == [Returned, LostClosing(0), Dialing(false)];
  }

  lemma StartIsReachable(default: Gateway)
    ensures Reachable(START, default)
  {
    assert ValidRun(START, [], default) && Run(START, [], default) == START;
  }

  lemma OneMoreEvent(w: World, e: Event, default: Gateway)
    requires Reachable(w, default) && Enabled(w, e)
    ensures Reachable(Next(w, e, default), default)
  {
    hide Next, Enabled;
    var events: seq<Event> :| ValidRun(START, events, default) && Run(START, events, default) == w;
    ExtendRun(START, events, e, default);
  }

  lemma {:induction false} ExtendRun(w: World, events: seq<Event>, e: Event, default: Gateway)
    requires ValidRun(w, events, default) && Enabled(Run(w, events, default), e)
    ensures ValidRun(w, events + [e], default)
    ensures Run(w, events + [e], default) == Next(Run(w, events, default), e, default)
    decreases |events|
  {
    hide Next, Enabled;
    if events == [] {
      assert events + [e] == [e];
      assert [e][1..] == [];
    } else {
      ExtendRun(Next(w, events[0], default), events[1..], e, default);
      assert (events + [e])[1..] == events[1..] + [e];
    }
  }

  // --- Shutdown ---

  /** Nothing of the requests is left but the teardown of Shutdown itself, and nothing is published. */
  predicate Dark(w: World) {
    && !w.serving && w.d.connection == None && w.d.cancelConnect == None
    && forall t :: 0 <= t < |w.tasks| ==>
         !InFlight(w.tasks[t]) && !w.tasks[t].AbortClosing? && !w.tasks[t].AbortSettling?
  }

  lemma DarkStays(w: World, e: Event, default: Gateway)
    requires Dark(w) && Enabled(w, e)
    ensures Dark(Next(w, e, default))
  {
    if e.Shutdown? {
      MarkingKeepsRoles(w.tasks);
    }
  }

  lemma {:induction false} DarkStaysOverRun(w: World, events: seq<Event>, default: Gateway)
    requires Dark(w) && ValidRun(w, events, default)
    ensures Dark(Run(w, events, default))
    decreases |events|
  {
    hide Dark, Next, Enabled;
    if events != [] {
      DarkStays(w, events[0], default);
      DarkStaysOverRun(Next(w, events[0], default), events[1..], default);
    }
  }

  lemma ShutdownGoesDark(w: World, default: Gateway)
    requires Inv(w) && Enabled(w, ServeReturns)
    ensures Dark(Next(Next(w, ServeReturns, default), Shutdown, default))
  {
    forall u | 0 <= u < |w.tasks|
      ensures !InFlight(w.tasks[u]) && !w.tasks[u].AbortClosing? && !w.tasks[u].AbortSettling?
    {
      assert !IsRequest(w.tasks[u]);
    }
    MarkingKeepsRoles(w.tasks);
  }

  /** Shutdown runs once the server has returned, which it does only when no request is being answered.
      From then on nothing is ever published again, and when Shutdown has returned every connection
      ever opened has been closed exactly once, or is still being closed by the watcher that saw it
      drop. So everything is closed if and only if no such watcher is at work. */
  lemma ShutdownLeavesNothingBehind(w: World, events: seq<Event>, default: Gateway)
    requires Reachable(w, default) && Enabled(w, ServeReturns)
    requires ValidRun(Next(Next(w, ServeReturns, default), Shutdown, default), events, default)
    requires var end := Run(Next(Next(w, ServeReturns, default), Shutdown, default), events, default);
             forall t :: 0 <= t < |end.tasks| ==> !IsTeardown(end.tasks[t])
    ensures var end := Run(Next(Next(w, ServeReturns, default), Shutdown, default), events, default);
            && end.d.connection == None
            && (forall c: nat :: c < end.produced && end.closed[c] != 1 ==>
                  exists t :: 0 <= t < |end.tasks| && end.tasks[t] == LostClosing(c))
            && ((forall c: nat :: c < end.produced ==> end.closed[c] == 1)
                <==> forall t :: 0 <= t < |end.tasks| ==> !end.tasks[t].LostClosing?)
  {
    hide Conserved, Counts, Pointers;
    var stopped := Next(w, ServeReturns, default);
    ReachableHolds(w, default);
    ServingIsApart(w);
    DisconnectKeeps(stopped);
    var dark := Next(stopped, Shutdown, default);
    ShutdownGoesDark(w, default);
    DarkStaysOverRun(dark, events, default);
    RunKeeps(dark, events, default);
    var end := Run(dark, events, default);
    DarkEnd(end);
  }

  lemma DarkEnd(end: World)
    requires Dark(end) && Conserved(end)
    requires forall t :: 0 <= t < |end.tasks| ==> !IsTeardown(end.tasks[t])
    ensures forall c: nat :: c < end.produced && end.closed[c] != 1 ==>
              exists t :: 0 <= t < |end.tasks| && end.tasks[t] == LostClosing(c)
    ensures (forall c: nat :: c < end.produced ==> end.closed[c] == 1)
            <==> forall t :: 0 <= t < |end.tasks| ==> !end.tasks[t].LostClosing?
  {
    hide Tally;
    forall c: nat | c < end.produced && end.closed[c] != 1
      ensures exists t :: 0 <= t < |end.tasks| && end.tasks[t] == LostClosing(c)
    {
      assert Places(end, c) == 1;
      var t := SomeOf(Owning(c), end.tasks);
    }
    forall t | 0 <= t < |end.tasks| && end.tasks[t].LostClosing?
      ensures exists c: nat :: c < end.produced && end.closed[c] != 1
    {
      var c := end.tasks[t].connection;
      ReplacingCounts(Owning(c), end.tasks, t, end.tasks[t]);
      assert Places(end, c) == if c < end.produced then 1 else 0;
    }
  }
}
