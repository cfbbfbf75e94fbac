/** The controller with its workers: every interleaving of user commands, ticks, worker steps and the
    daemon's answers, for a login that reports its URL only before it returns. */
module ControllerRuns {
  import opened Bytes
  import opened Controllers
  import D = Daemons

  datatype Kind = Login | Logout

  datatype Stage = LoggingIn | Requesting | Done

  datatype Worker = Worker(generation: nat, kind: Kind, stage: Stage)

  /** The actor, the messages queued for it, every worker ever started, and what was published, each
      snapshot with whether an action was in flight when it was. */
  datatype World = World(fields: Fields, queue: seq<Message>, workers: seq<Worker>, published: seq<(Snapshot, bool)>)

  const START := World(NEW_FIELDS, [], [], [])

  datatype Event =
    | UserPosts(command: Message)
    | Tick(reply: StatusReply)
    | ExecuteNext(reply: StatusReply)
    | ReportsURL(worker: nat, url: string)
    | LoginFails(worker: nat, error: WorkError)
    | LogsIn(worker: nat)
    | DaemonAnswers(worker: nat, answer: CommandReply)

  predicate AtStage(w: World, i: nat, stage: Stage) {
    i < |w.workers| && w.workers[i].stage == stage
  }

  predicate Enabled(w: World, e: Event) {
    match e
    case UserPosts(command) => !command.Stamped?
    case Tick(_) => true
    case ExecuteNext(_) => w.queue != []
    case ReportsURL(i, _) => AtStage(w, i, LoggingIn)
    case LoginFails(i, _) => AtStage(w, i, LoggingIn)
    case LogsIn(i) => AtStage(w, i, LoggingIn)
    case DaemonAnswers(i, _) => AtStage(w, i, Requesting)
  }

  function Post(w: World, i: nat, body: Body, stage: Stage): World
    requires i < |w.workers|
  {
    w.(queue := w.queue + [Stamped(w.workers[i].generation, body)],
       workers := w.workers[i := w.workers[i].(stage := stage)])
  }

  /** The worker a command starts, if the actor was idle. */
  function Started(f: Fields, m: Message): seq<Worker> {
    if f.working then []
    else if m.StartConnect? then [Worker(f.generation + 1, Login, LoggingIn)]
    else if m.StartDisconnect? then [Worker(f.generation + 1, Logout, Requesting)]
    else []
  }

  function Publish(published: seq<(Snapshot, bool)>, e: Execution): seq<(Snapshot, bool)> {
    if e.emitted == [] then published else published + [(e.emitted[0], e.fields.working)]
  }

  function Next(w: World, e: Event): World
    requires Enabled(w, e)
  {
    match e
    case UserPosts(command) => w.(queue := w.queue + [command])
    case Tick(reply) =>
      var x := Polling(w.fields, reply);
      w.(fields := x.fields, published := Publish(w.published, x))
    case ExecuteNext(reply) =>
      var m := w.queue[0];
      var x := Execute(w.fields, m, reply);
      World(x.fields, w.queue[1..], w.workers + Started(w.fields, m), Publish(w.published, x))
    case ReportsURL(i, url) => Post(w, i, SetURL(url), LoggingIn)
    case LoginFails(i, error) => Post(w, i, Finished(Some(error)), Done)
    case LogsIn(i) => Post(w, i, LoggedIn, Requesting)
    case DaemonAnswers(i, answer) => Post(w, i, Finished(CommandError(answer)), Done)
  }

  predicate ValidRun(w: World, events: seq<Event>)
    decreases |events|
  {
    events == [] || (Enabled(w, events[0]) && ValidRun(Next(w, events[0]), events[1..]))
  }

  function Run(w: World, events: seq<Event>): World
    requires ValidRun(w, events)
    decreases |events|
  {
    if events == [] then w else Run(Next(w, events[0]), events[1..])
  }

  // --- The invariant ---

  /** What a generation still has in the queue, in order. */
  function Pending(queue: seq<Message>, generation: nat): seq<Body> {
    if queue == [] then []
    else
      (if queue[0].Stamped? && queue[0].generation == generation then [queue[0].body] else [])
      + Pending(queue[1..], generation)
  }

  predicate OnlyURLs(bodies: seq<Body>) {
    forall i :: 0 <= i < |bodies| ==> bodies[i].SetURL?
  }

  function Last(bodies: seq<Body>): Body
    requires bodies != []
  {
    bodies[|bodies| - 1]
  }

  /** URLs, then one other body. */
  predicate URLsThenOne(bodies: seq<Body>) {
    bodies != [] && OnlyURLs(bodies[..|bodies| - 1])
  }

  /** URLs, then the end of the login and the end of the action. */
  predicate URLsThenBoth(bodies: seq<Body>) {
    && |bodies| >= 2 && Last(bodies).Finished?
    && URLsThenOne(bodies[..|bodies| - 1]) && Last(bodies[..|bodies| - 1]).LoggedIn?
  }

  /** How far the current worker, the messages it still has queued and the phase have got together. */
  predicate InStep(worker: Worker, pending: seq<Body>, snap: Snapshot) {
    match (worker.kind, worker.stage)
    case (Login, LoggingIn) => snap.phase == Authenticating && OnlyURLs(pending)
    case (Login, Requesting) =>
      || (snap.phase == Authenticating && URLsThenOne(pending) && Last(pending).LoggedIn?)
      || (snap.phase == Connecting && snap.loginURL == "" && pending == [])
    case (Login, Done) =>
      || (snap.phase == Authenticating && ((URLsThenOne(pending) && Last(pending).Finished?) || URLsThenBoth(pending)))
      || (snap.phase == Connecting && snap.loginURL == "" && |pending| == 1 && pending[0].Finished?)
    case (Logout, Requesting) => snap.phase == Disconnecting && snap.loginURL == "" && pending == []
    case (Logout, Done) =>
      snap.phase == Disconnecting && snap.loginURL == "" && |pending| == 1 && pending[0].Finished?
    case (Logout, LoggingIn) => false
  }

  predicate Ordered(w: World) {
    && (forall i :: 0 <= i < |w.workers| ==> w.workers[i].generation <= w.fields.generation)
    && (forall i, j :: 0 <= i < j < |w.workers| ==> w.workers[i].generation < w.workers[j].generation)
    && (forall i :: 0 <= i < |w.queue| && w.queue[i].Stamped? ==> w.queue[i].generation <= w.fields.generation)
  }

  /** While an action is in flight its worker is the last one started. */
  predicate WorkingInv(w: World) {
    var last := |w.workers| - 1;
    && last >= 0
    && w.workers[last].generation == w.fields.generation
    && InStep(w.workers[last], Pending(w.queue, w.fields.generation), w.fields.snap)
    && w.fields.cancelWork == (if w.workers[last].kind == Login then Some(w.fields.generation) else None)
  }

  predicate IdleInv(w: World) {
    && w.fields.cancelWork == None && w.fields.snap.loginURL == ""
    && Pending(w.queue, w.fields.generation) == []
    && (forall i :: 0 <= i < |w.workers| && w.workers[i].generation == w.fields.generation ==>
          w.workers[i].stage == Done)
  }

  /** A phase says what state the daemon is in; a failed one shows as Disconnected, none as Unknown. */
  predicate SaysSo(phase: Phase, state: Option<D.Phase>) {
    && (phase == Connected <==> state == Some(D.Connected))
    && (phase == Connecting <==> state == Some(D.Connecting))
    && (phase == Disconnecting <==> state == Some(D.Disconnecting))
    && (phase == Disconnected <==> state == Some(D.Disconnected) || state == Some(D.Error))
    && (phase == Unknown <==> state == None)
  }

  /** A snapshot published while nothing was in flight shows what the daemon said. */
  predicate Honest(p: (Snapshot, bool)) {
    if p.1 then p.0.Busy() && (p.0.loginURL != "" ==> p.0.phase == Authenticating)
    else (p.0.phase == NoDaemon || SaysSo(p.0.phase, p.0.status.state)) && p.0.loginURL == ""
  }

  predicate Inv(w: World) {
    && Ordered(w)
    && (if w.fields.working then WorkingInv(w) else IdleInv(w))
    && (forall i :: 0 <= i < |w.published| ==> Honest(w.published[i]))
  }

  lemma {:induction false} PendingAppends(queue: seq<Message>, m: Message, generation: nat)
    ensures Pending(queue + [m], generation)
            == Pending(queue, generation) + if m.Stamped? && m.generation == generation then [m.body] else []
  {
    if queue != [] {
      PendingAppends(queue[1..], m, generation);
      assert (queue + [m])[1..] == queue[1..] + [m];
    }
  }

  lemma {:induction false} NothingPendingAhead(queue: seq<Message>, generation: nat)
    requires forall i :: 0 <= i < |queue| && queue[i].Stamped? ==> queue[i].generation < generation
    ensures Pending(queue, generation) == []
  {
    if queue != [] {
      assert queue[0].Stamped? ==> queue[0].generation < generation;
      NothingPendingAhead(queue[1..], generation);
    }
  }

  lemma WorkingIsBusy(w: World)
    requires w.fields.working && WorkingInv(w)
    ensures w.fields.snap.Busy()
    ensures w.fields.snap.loginURL != "" ==> w.fields.snap.phase == Authenticating
  {
  }

  /** A worker may report a URL or the end of its login while logging in, and its own end at any time
      before that. */
  predicate MayPost(worker: Worker, body: Body, stage: Stage) {
    || (worker.stage == LoggingIn && body.SetURL? && stage == LoggingIn)
    || (worker.stage == LoggingIn && body.LoggedIn? && stage == Requesting)
    || (worker.stage != Done && body.Finished? && stage == Done)
  }

  lemma PostInStep(worker: Worker, pending: seq<Body>, snap: Snapshot, body: Body, stage: Stage)
    requires InStep(worker, pending, snap) && MayPost(worker, body, stage)
    ensures InStep(worker.(stage := stage), pending + [body], snap)
  {
    assert (pending + [body])[..|pending|] == pending;
  }

  lemma PostsKeep(w: World, i: nat, body: Body, stage: Stage)
    requires Inv(w) && i < |w.workers| && MayPost(w.workers[i], body, stage)
    ensures Inv(Post(w, i, body, stage))
  {
    hide InStep, Honest, Pending;
    var w' := Post(w, i, body, stage);
    var g := w.fields.generation;
    PendingAppends(w.queue, Stamped(w.workers[i].generation, body), g);
    var pending := Pending(w.queue, g);
    if w.fields.working {
      var last := |w.workers| - 1;
      if i == last {
        PostInStep(w.workers[i], pending, w.fields.snap, body, stage);
      } else {
        assert pending + [] == pending;
      }
    } else {
      assert w.workers[i].generation != g;
      assert pending + [] == pending;
    }
  }

  lemma UserPostKeeps(w: World, m: Message)
    requires Inv(w) && !m.Stamped?
    ensures Inv(w.(queue := w.queue + [m]))
  {
    hide InStep, Honest, Pending;
    PendingAppends(w.queue, m, w.fields.generation);
    assert Pending(w.queue, w.fields.generation) + [] == Pending(w.queue, w.fields.generation);
  }

  lemma PhasesSaySo()
    ensures forall state :: SaysSo(PhaseOf(state), state)
  {
  }

  lemma TickKeeps(w: World, reply: StatusReply)
    requires Inv(w)
    ensures Inv(Next(w, Tick(reply)))
  {
    hide SaysSo, PhaseOf;
    PhasesSaySo();
    var w' := Next(w, Tick(reply));
    if w.fields.working {
      WorkingIsBusy(w);
    }
    assert Honest(w'.published[|w.published|]);
  }

  /** The message at the head of the queue is taken off. */
  lemma HeadOfPending(queue: seq<Message>, generation: nat)
    requires queue != []
    ensures Pending(queue, generation)
            == if queue[0].Stamped? && queue[0].generation == generation
               then [queue[0].body] + Pending(queue[1..], generation)
               else Pending(queue[1..], generation)
  {
    var rest := Pending(queue[1..], generation);
    assert [] + rest == rest;
  }

  lemma PublishedStaysHonest(published: seq<(Snapshot, bool)>, e: Execution)
    requires forall i :: 0 <= i < |published| ==> Honest(published[i])
    requires e.emitted != [] ==> Honest((e.emitted[0], e.fields.working))
    ensures forall i :: 0 <= i < |Publish(published, e)| ==> Honest(Publish(published, e)[i])
  {
  }

  /** Everything posted or started so far is older than the next generation. */
  lemma NextGenerationIsFresh(w: World)
    requires Ordered(w) && w.queue != []
    ensures Pending(w.queue[1..], w.fields.generation + 1) == []
    ensures forall i :: 0 <= i < |w.workers| ==> w.workers[i].generation != w.fields.generation + 1
  {
    var rest := w.queue[1..];
    forall i | 0 <= i < |rest| && rest[i].Stamped?
      ensures rest[i].generation < w.fields.generation + 1
    {
      assert rest[i] == w.queue[i + 1];
    }
    NothingPendingAhead(rest, w.fields.generation + 1);
  }

  lemma OrderedStays(w: World, reply: StatusReply)
    requires Inv(w) && w.queue != []
    ensures Ordered(Next(w, ExecuteNext(reply)))
  {
    hide Pending, InStep, Honest;
    var w' := Next(w, ExecuteNext(reply));
    forall i | 0 <= i < |w'.queue| && w'.queue[i].Stamped?
      ensures w'.queue[i].generation <= w'.fields.generation
    {
      assert w'.queue[i] == w.queue[i + 1];
    }
  }

  /** A message that does nothing. */
  lemma DroppedKeeps(w: World, reply: StatusReply)
    requires Inv(w) && w.queue != [] && Execute(w.fields, w.queue[0], reply) == Execution(w.fields, [], false)
    requires Started(w.fields, w.queue[0]) == [] && (!w.queue[0].Stamped? || Stale(w.fields, w.queue[0]))
    ensures Inv(Next(w, ExecuteNext(reply)))
  {
    hide InStep, Honest, Execute, Pending, Started, Ordered;
    var w' := Next(w, ExecuteNext(reply));
    OrderedStays(w, reply);
    HeadOfPending(w.queue, w.fields.generation);
    assert w'.workers == w.workers;
  }

  lemma StartKeeps(w: World, reply: StatusReply)
    requires Inv(w) && w.queue != [] && (w.queue[0].StartConnect? || w.queue[0].StartDisconnect?)
    ensures Inv(Next(w, ExecuteNext(reply)))
  {
    if w.fields.working {
      DroppedKeeps(w, reply);
    } else {
      BeginKeeps(w, reply);
    }
  }

  lemma BeginKeeps(w: World, reply: StatusReply)
    requires Inv(w) && w.queue != [] && (w.queue[0].StartConnect? || w.queue[0].StartDisconnect?)
    requires !w.fields.working
    ensures Inv(Next(w, ExecuteNext(reply)))
  {
    hide Pending;
    var w' := Next(w, ExecuteNext(reply));
    OrderedStays(w, reply);
    NextGenerationIsFresh(w);
    assert w'.fields.generation == w.fields.generation + 1;
    var worker := w'.workers[|w'.workers| - 1];
    assert InStep(worker, [], w'.fields.snap);
    assert WorkingInv(w');
    WorkingIsBusy(w');
    PublishedStaysHonest(w.published, Execute(w.fields, w.queue[0], reply));
  }

  lemma InStepIgnoresStatus(worker: Worker, pending: seq<Body>, before: Snapshot, after: Snapshot)
    requires InStep(worker, pending, before) && after.phase == before.phase && after.loginURL == before.loginURL
    ensures InStep(worker, pending, after)
  {
  }

  lemma RefreshKeeps(w: World, reply: StatusReply)
    requires Inv(w) && w.queue != [] && w.queue[0].Refresh?
    ensures Inv(Next(w, ExecuteNext(reply)))
  {
    hide InStep, Pending, SaysSo, PhaseOf;
    PhasesSaySo();
    var w' := Next(w, ExecuteNext(reply));
    OrderedStays(w, reply);
    HeadOfPending(w.queue, w.fields.generation);
    assert w'.workers == w.workers;
    if w.fields.working {
      WorkingIsBusy(w);
      var pending := Pending(w.queue, w.fields.generation);
      InStepIgnoresStatus(w.workers[|w.workers| - 1], pending, w.fields.snap, w'.fields.snap);
    }
    PublishedStaysHonest(w.published, Polling(w.fields, reply));
  }

  lemma AbandonKeeps(w: World, reply: StatusReply)
    requires Inv(w) && w.queue != [] && w.queue[0].Cancel? && w.fields.cancelWork.Some?
    ensures Inv(Next(w, ExecuteNext(reply)))
  {
    hide InStep, Pending, SaysSo, PhaseOf;
    PhasesSaySo();
    var w' := Next(w, ExecuteNext(reply));
    OrderedStays(w, reply);
    NextGenerationIsFresh(w);
    assert w'.workers == w.workers;
    PublishedStaysHonest(w.published, Polling(AfterAbandon(w.fields), reply));
  }

  /** The current worker's own message: what is left of its pending bodies stays in step with it. */
  lemma StampedKeeps(w: World, reply: StatusReply)
    requires Inv(w) && w.queue != [] && w.queue[0].Stamped? && !Stale(w.fields, w.queue[0])
    ensures Inv(Next(w, ExecuteNext(reply)))
  {
    hide InStep, Pending, SaysSo, PhaseOf;
    PhasesSaySo();
    var w' := Next(w, ExecuteNext(reply));
    var x := Execute(w.fields, w.queue[0], reply);
    OrderedStays(w, reply);
    var pending := Pending(w.queue, w.fields.generation);
    var rest := Pending(w.queue[1..], w.fields.generation);
    HeadOfPending(w.queue, w.fields.generation);
    assert pending == [w.queue[0].body] + rest;
    assert pending != [];
    assert w'.workers == w.workers;
    BodyInStep(w.workers[|w.workers| - 1], pending, rest, w.fields.snap, w'.fields.snap);
    if w'.fields.working {
      WorkingIsBusy(w');
    }
    PublishedStaysHonest(w.published, x);
  }

  lemma URLsTail(bodies: seq<Body>)
    requires bodies != [] && OnlyURLs(bodies)
    ensures bodies[0].SetURL? && OnlyURLs(bodies[1..])
  {
  }

  lemma URLsThenOneTail(bodies: seq<Body>)
    requires URLsThenOne(bodies) && |bodies| > 1
    ensures bodies[0].SetURL? && URLsThenOne(bodies[1..]) && Last(bodies[1..]) == Last(bodies)
  {
    var early := bodies[..|bodies| - 1];
    URLsTail(early);
    assert bodies[0] == early[0];
    assert bodies[1..][..|bodies| - 2] == early[1..];
  }

  lemma URLsThenBothTail(bodies: seq<Body>)
    requires URLsThenBoth(bodies)
    ensures if |bodies| > 2 then bodies[0].SetURL? && URLsThenBoth(bodies[1..])
            else bodies[0].LoggedIn? && |bodies[1..]| == 1 && bodies[1..][0].Finished?
  {
    if |bodies| > 2 {
      hide URLsThenOne;
      var early := bodies[..|bodies| - 1];
      URLsThenOneTail(early);
      assert bodies[0] == early[0];
      assert bodies[1..][..|bodies| - 2] == early[1..];
    }
  }

  /** Taking the first pending body off. */
  lemma BodyInStep(worker: Worker, pending: seq<Body>, rest: seq<Body>, before: Snapshot, after: Snapshot)
    requires pending != [] && rest == pending[1..] && InStep(worker, pending, before)
    requires pending[0].SetURL? ==> after == before.(loginURL := pending[0].url)
    requires pending[0].LoggedIn? ==> after == before.(phase := Connecting, loginURL := "")
    ensures pending[0].Finished? ==> rest == [] && worker.stage == Done
    ensures !pending[0].Finished? ==> InStep(worker, rest, after)
  {
    if worker.kind == Login && worker.stage == LoggingIn {
      URLsTail(pending);
    } else if URLsThenBoth(pending) {
      URLsThenBothTail(pending);
    } else if URLsThenOne(pending) && |pending| > 1 {
      URLsThenOneTail(pending);
    }
    hide OnlyURLs, URLsThenOne, URLsThenBoth;
  }

  lemma StepKeeps(w: World, e: Event)
    requires Inv(w) && Enabled(w, e)
    ensures Inv(Next(w, e))
  {
    hide Inv;
    match e
    case UserPosts(command) => UserPostKeeps(w, command);
    case Tick(reply) => TickKeeps(w, reply);
    case ExecuteNext(reply) =>
      var m := w.queue[0];
      if m.StartConnect? || m.StartDisconnect? {
        StartKeeps(w, reply);
      } else if m.Refresh? {
        RefreshKeeps(w, reply);
      } else if m.Cancel? {
        if w.fields.cancelWork.Some? {
          AbandonKeeps(w, reply);
        } else {
          DroppedKeeps(w, reply);
        }
      } else if Stale(w.fields, m) {
        StaleDoesNothing(w.fields, m, reply);
        DroppedKeeps(w, reply);
      } else {
        StampedKeeps(w, reply);
      }
    case ReportsURL(i, url) => PostsKeep(w, i, SetURL(url), LoggingIn);
    case LoginFails(i, error) => PostsKeep(w, i, Finished(Some(error)), Done);
    case LogsIn(i) => PostsKeep(w, i, LoggedIn, Requesting);
    case DaemonAnswers(i, answer) => PostsKeep(w, i, Finished(CommandError(answer)), Done);
  }

  lemma {:induction false} RunKeeps(w: World, events: seq<Event>)
    requires Inv(w) && ValidRun(w, events)
    ensures Inv(Run(w, events))
    decreases |events|
  {
    hide Inv, Next;
    if events != [] {
      StepKeeps(w, events[0]);
      RunKeeps(Next(w, events[0]), events[1..]);
    }
  }

  // --- What every run guarantees ---

  /** How many reports of its own end a generation has in the queue. */
  function Finishes(queue: seq<Message>, generation: nat): nat {
    if queue == [] then 0
    else
      (if queue[0].Stamped? && queue[0].generation == generation && queue[0].body.Finished? then 1 else 0)
      + Finishes(queue[1..], generation)
  }

  function FinishedBodies(bodies: seq<Body>): nat {
    if bodies == [] then 0 else (if bodies[0].Finished? then 1 else 0) + FinishedBodies(bodies[1..])
  }

  lemma {:induction false} FinishesArePending(queue: seq<Message>, generation: nat)
    ensures Finishes(queue, generation) == FinishedBodies(Pending(queue, generation))
  {
    if queue != [] {
      FinishesArePending(queue[1..], generation);
      HeadOfPending(queue, generation);
      var rest := Pending(queue[1..], generation);
      if queue[0].Stamped? && queue[0].generation == generation {
        assert ([queue[0].body] + rest)[1..] == rest;
      } else {
        assert [] + rest == rest;
      }
    }
  }

  lemma {:induction false} LastCounts(bodies: seq<Body>)
    requires bodies != []
    requires forall i :: 0 <= i < |bodies| - 1 ==> !bodies[i].Finished?
    ensures FinishedBodies(bodies) == if bodies[|bodies| - 1].Finished? then 1 else 0
  {
    if |bodies| > 1 {
      assert forall i :: 0 <= i < |bodies[1..]| - 1 ==> bodies[1..][i] == bodies[i + 1];
      LastCounts(bodies[1..]);
    }
  }

  lemma InStepCounts(worker: Worker, pending: seq<Body>, snap: Snapshot)
    requires InStep(worker, pending, snap)
    ensures FinishedBodies(pending) == if worker.stage == Done then 1 else 0
  {
    if pending != [] {
      var before := pending[..|pending| - 1];
      assert forall i :: 0 <= i < |before| ==> before[i] == pending[i];
      if URLsThenBoth(pending) {
        assert before[|before| - 1].LoggedIn?;
        assert forall i :: 0 <= i < |before| - 1 ==> before[..|before| - 1][i] == before[i];
      }
      LastCounts(pending);
    }
  }

  /** A worker of the current generation that is still out, or whose end is still in the queue. */
  predicate InFlight(w: World, i: int) {
    && 0 <= i < |w.workers|
    && w.workers[i].generation == w.fields.generation
    && (w.workers[i].stage != Done || Finishes(w.queue, w.fields.generation) > 0)
  }

  /** For every run: an action is in flight exactly when `working` says so, there is only ever one, it
      will report its end exactly once, Cancel can reach it only if it is a login, and the URL is shown
      only while that login waits. */
  lemma WorkingMeansOneAction(events: seq<Event>)
    requires ValidRun(START, events)
    ensures var w := Run(START, events);
            && (w.fields.working <==> exists i :: InFlight(w, i))
            && (forall i, j :: InFlight(w, i) && InFlight(w, j) ==> i == j)
            && (forall i :: InFlight(w, i) ==>
                  Finishes(w.queue, w.fields.generation) == if w.workers[i].stage == Done then 1 else 0)
            && (w.fields.cancelWork.Some? <==> exists i :: InFlight(w, i) && w.workers[i].kind == Login)
            && (w.fields.snap.loginURL != "" ==> w.fields.working && w.fields.snap.phase == Authenticating)
  {
    RunKeeps(START, events);
    var w := Run(START, events);
    var g := w.fields.generation;
    FinishesArePending(w.queue, g);
    if w.fields.working {
      var last := |w.workers| - 1;
      InStepCounts(w.workers[last], Pending(w.queue, g), w.fields.snap);
      assert InFlight(w, last);
      assert forall i :: InFlight(w, i) ==> i == last;
      WorkingIsBusy(w);
    }
  }

  /** For every run and every snapshot it ever published: with an action in flight it is busy, without
      one it shows no daemon or exactly what the daemon said last, and no login URL. */
  lemma SnapshotsAreHonest(events: seq<Event>, k: nat)
    requires ValidRun(START, events) && k < |Run(START, events).published|
    ensures var p := Run(START, events).published[k];
            && (!p.1 ==> p.0.phase == NoDaemon || SaysSo(p.0.phase, p.0.status.state))
            && (p.1 ==> p.0.Busy())
            && (p.0.loginURL != "" ==> p.1 && p.0.phase == Authenticating)
  {
    RunKeeps(START, events);
    assert Honest(Run(START, events).published[k]);
  }

  // --- What the user sees ---

  /** What the user has been told, by the messages and the daemon's answers alone: the last failure, the login URL,
      the daemon's status, and whether it could not be reached when last asked. */
  datatype Told = Told(err: string, url: string, status: Status, lost: bool)

  const NOTHING_TOLD := Told("", "", NO_STATUS, false)

  function HearPoll(told: Told, reply: StatusReply, idle: bool): Told {
    match reply
    case Unreachable(message) => told.(status := NO_STATUS, lost := true, err := if idle then message else told.err)
    case Reply(status) => told.(lost := false, status := if status.Some? then status.value else told.status)
  }

  function HearEnd(told: Told, error: Option<WorkError>): Told {
    match error
    case Some(Failure(message)) => told.(url := "", err := message)
    case _ => told.(url := "")
  }

  function Hear(told: Told, w: World, e: Event): Told
    requires Enabled(w, e)
  {
    match e
    case Tick(reply) => HearPoll(told, reply, !w.fields.working)
    case ExecuteNext(reply) =>
      (match w.queue[0]
       case StartConnect => if w.fields.working then told else told.(err := "", url := "")
       case StartDisconnect => if w.fields.working then told else told.(err := "")
       case Refresh => HearPoll(told, reply, !w.fields.working)
       case Cancel => if w.fields.cancelWork.None? then told else HearPoll(told.(url := ""), reply, true)
       case Stamped(generation, body) =>
         if generation != w.fields.generation then told
         else
           match body
           case SetURL(url) => told.(url := url)
           case LoggedIn => told.(url := "")
           case Finished(error) => HearPoll(HearEnd(told, error), reply, true))
    case _ => told
  }

  function HearAll(told: Told, w: World, events: seq<Event>): Told
    requires ValidRun(w, events)
    decreases |events|
  {
    if events == [] then told else HearAll(Hear(told, w, events[0]), Next(w, events[0]), events[1..])
  }

  predicate Matches(told: Told, snap: Snapshot) {
    snap.err == told.err && snap.loginURL == told.url && snap.status == told.status
  }

  /** The fields match, and with nothing in flight so does the phase. */
  predicate Agrees(told: Told, f: Fields) {
    && Matches(told, f.snap)
    && (!f.working ==>
          && (f.snap.phase == NoDaemon <==> told.lost)
          && (!told.lost ==> SaysSo(f.snap.phase, told.status.state)))
  }

  predicate Seen(told: Told, w: World) {
    && Agrees(told, w.fields)
    && w.fields.snap == if w.published == [] then NEW_FIELDS.snap else w.published[|w.published| - 1].0
  }

  lemma PollAgrees(told: Told, f: Fields, reply: StatusReply)
    requires Matches(told, f.snap)
    ensures Agrees(HearPoll(told, reply, !f.working), AfterRefresh(f, reply))
  {
  }

  lemma ExecutionAgrees(told: Told, w: World, reply: StatusReply)
    requires Inv(w) && w.queue != [] && Agrees(told, w.fields)
    ensures Agrees(Hear(told, w, ExecuteNext(reply)), Execute(w.fields, w.queue[0], reply).fields)
  {
    hide SaysSo, HearPoll, AfterRefresh, Ordered, WorkingInv, Honest, Pending;
    HeadOfPending(w.queue, w.fields.generation);
    match w.queue[0]
    case Refresh => PollAgrees(told, w.fields, reply);
    case Cancel =>
      if w.fields.cancelWork.Some? {
        PollAgrees(told.(url := ""), AfterAbandon(w.fields), reply);
      }
    case Stamped(generation, body) =>
      if generation == w.fields.generation {
        match body
        case Finished(error) => PollAgrees(HearEnd(told, error), BeforeFinalRefresh(w.fields, error), reply);
        case SetURL(url) => CurrentStays(told, w.fields, body, reply);
        case LoggedIn => CurrentStays(told, w.fields, body, reply);
      }
    case _ =>
  }

  /** What the user is shown of the current action, in the middle of it. */
  lemma CurrentStays(told: Told, f: Fields, body: Body, reply: StatusReply)
    requires Agrees(told, f) && f.working && !body.Finished?
    ensures Agrees(if body.SetURL? then told.(url := body.url) else told.(url := ""),
                   Execute(f, Stamped(f.generation, body), reply).fields)
  {
  }

  lemma StepIsSeen(told: Told, w: World, e: Event)
    requires Inv(w) && Enabled(w, e) && Seen(told, w)
    ensures Seen(Hear(told, w, e), Next(w, e))
  {
    assert Matches(told, w.fields.snap);
    hide Inv, Agrees, Matches, HearPoll, AfterRefresh;
    match e
    case Tick(reply) => PollAgrees(told, w.fields, reply);
    case ExecuteNext(reply) =>
      ExecutionAgrees(told, w, reply);
      WhatChangesIsEmitted(w.fields, w.queue[0], reply);
      hide Hear, Execute;
    case _ =>
  }

  lemma WhatChangesIsEmitted(f: Fields, m: Message, reply: StatusReply)
    ensures var x := Execute(f, m, reply);
            |x.emitted| <= 1 && x.fields.snap == if x.emitted == [] then f.snap else x.emitted[0]
  {
  }

  lemma {:induction false} RunIsSeen(told: Told, w: World, events: seq<Event>)
    requires Inv(w) && ValidRun(w, events) && Seen(told, w)
    ensures Seen(HearAll(told, w, events), Run(w, events))
    decreases |events|
  {
    hide Inv, Seen, Hear, Next, Enabled;
    if events != [] {
      StepKeeps(w, events[0]);
      StepIsSeen(told, w, events[0]);
      RunIsSeen(Hear(told, w, events[0]), Next(w, events[0]), events[1..]);
    }
  }

  /** After every run the snapshot last published is the current one, and it shows the failure, the URL and the status
      that the user was told last; with nothing in flight its phase is that of the daemon, or that there is none. */
  lemma WhatIsToldIsShown(events: seq<Event>)
    requires ValidRun(START, events) && Run(START, events).published != []
    ensures var w, told := Run(START, events), HearAll(NOTHING_TOLD, START, events);
            var snap := w.published[|w.published| - 1].0;
            && snap.err == told.err && snap.loginURL == told.url && snap.status == told.status
            && (!w.fields.working ==>
                  && (snap.phase == NoDaemon <==> told.lost)
                  && (!told.lost ==> SaysSo(snap.phase, told.status.state)))
  {
    assert Inv(START) && Seen(NOTHING_TOLD, START);
    hide Inv, Run, HearAll, SaysSo;
    RunIsSeen(NOTHING_TOLD, START, events);
  }

  /** What a worker reports when the daemon has answered: success, or why not, never without a word. */
  lemma AnswersAreReported(w: World, i: nat, answer: CommandReply)
    requires Enabled(w, DaemonAnswers(i, answer))
    ensures var w' := Next(w, DaemonAnswers(i, answer));
            var m := w'.queue[|w.queue|];
            && w'.queue == w.queue + [m] && m.Stamped? && m.generation == w.workers[i].generation && m.body.Finished?
            && (m.body.error.None? <==> answer.Answered? && answer.ok)
            && (m.body.error.Some? ==> m.body.error.value.Failure?)
            && (answer.TransportFailed? ==> m.body.error.value.message == answer.message)
            && (answer.Answered? && !answer.ok ==>
                  && m.body.error.value.message != ""
                  && (answer.error != "" ==> m.body.error.value.message == answer.error))
  {
  }

  /** What a worker reports of its login: each URL, its failure or its success, under its own generation, and it asks
      the daemon only after success. */
  lemma LoginsAreReported(w: World, e: Event, i: nat)
    requires Enabled(w, e) && i < |w.workers|
    requires e == LogsIn(i) || (e.ReportsURL? && e.worker == i) || (e.LoginFails? && e.worker == i)
    ensures var w' := Next(w, e);
            var body := if e.LogsIn? then LoggedIn
                        else if e.ReportsURL? then SetURL(e.url)
                        else Finished(Some(e.error));
            && w'.queue == w.queue + [Stamped(w.workers[i].generation, body)]
            && w'.workers[i].stage == (if e.LogsIn? then Requesting else if e.ReportsURL? then LoggingIn else Done)
            && w'.fields == w.fields && w'.published == w.published
  {
  }

  // --- Workers that a Cancel does not stop ---

  /** The generation a step gives up: that of the login an executed Cancel abandons. */
  function GivenUp(w: World, e: Event): set<nat> {
    if e.ExecuteNext? && w.queue != [] && w.queue[0].Cancel? && w.fields.cancelWork.Some?
    then {w.fields.cancelWork.value} else {}
  }

  function AllGivenUp(w: World, events: seq<Event>): set<nat>
    requires ValidRun(w, events)
    decreases |events|
  {
    if events == [] then {} else GivenUp(w, events[0]) + AllGivenUp(Next(w, events[0]), events[1..])
  }

  /** Whoever is still out without being the current action is a login that was given up. */
  predicate Strayed(w: World, given: set<nat>) {
    && (forall g :: g in given ==> g < w.fields.generation)
    && (forall i :: 0 <= i < |w.workers| && w.workers[i].stage != Done && w.workers[i].generation != w.fields.generation
          ==> w.workers[i].kind == Login && w.workers[i].generation in given)
  }

  lemma ExecutingKeepsStrayed(w: World, reply: StatusReply, given: set<nat>)
    requires Inv(w) && w.queue != [] && Strayed(w, given)
    ensures Strayed(Next(w, ExecuteNext(reply)), given + GivenUp(w, ExecuteNext(reply)))
  {
    hide Pending, Honest, AfterRefresh, OnlyURLs, URLsThenOne, URLsThenBoth;
    var e := ExecuteNext(reply);
    var w' := Next(w, e);
    GenerationOf(w, reply);
    forall i | 0 <= i < |w'.workers| && w'.workers[i].stage != Done
               && w'.workers[i].generation != w'.fields.generation
      ensures w'.workers[i].kind == Login && w'.workers[i].generation in given + GivenUp(w, e)
    {
      assert i < |w.workers| && w'.workers[i] == w.workers[i];
      if w.workers[i].generation == w.fields.generation {
        assert w.fields.working;
        assert i == |w.workers| - 1;
      }
    }
  }

  /** The generation moves with a new action or with the login that is given up. */
  lemma GenerationOf(w: World, reply: StatusReply)
    requires Inv(w) && w.queue != []
    ensures var f := Next(w, ExecuteNext(reply)).fields;
            var m := w.queue[0];
            if (m.StartConnect? || m.StartDisconnect?) && !w.fields.working then
              && f.generation == w.fields.generation + 1
              && Started(w.fields, m) != [] && Started(w.fields, m)[0].generation == f.generation
            else if m.Cancel? && w.fields.cancelWork.Some? then
              && f.generation == w.fields.generation + 1 && Started(w.fields, m) == []
              && w.fields.working && w.fields.cancelWork == Some(w.fields.generation)
              && w.workers[|w.workers| - 1].kind == Login
            else f.generation == w.fields.generation && Started(w.fields, m) == []
  {
    hide Pending, InStep, Honest;
  }

  lemma StepKeepsStrayed(w: World, e: Event, given: set<nat>)
    requires Inv(w) && Enabled(w, e) && Strayed(w, given)
    ensures Strayed(Next(w, e), given + GivenUp(w, e))
  {
    hide Inv;
    if e.ExecuteNext? {
      ExecutingKeepsStrayed(w, e.reply, given);
    }
  }

  lemma {:induction false} RunKeepsStrayed(w: World, events: seq<Event>, given: set<nat>)
    requires Inv(w) && ValidRun(w, events) && Strayed(w, given)
    ensures Strayed(Run(w, events), given + AllGivenUp(w, events))
    decreases |events|
  {
    hide Inv, Next, Strayed, GivenUp;
    if events == [] {
      assert given + {} == given;
    } else {
      var e := events[0];
      StepKeeps(w, e);
      StepKeepsStrayed(w, e, given);
      RunKeepsStrayed(Next(w, e), events[1..], given + GivenUp(w, e));
      assert given + GivenUp(w, e) + AllGivenUp(Next(w, e), events[1..]) == given + AllGivenUp(w, events);
    }
  }

  /** For every run, exactly which workers run on although the controller has nothing to do with them any
      more: the logins that a Cancel gave up, whatever they have got to. */
  lemma RunsOnIffGivenUp(events: seq<Event>, i: nat)
    requires ValidRun(START, events) && i < |Run(START, events).workers|
    requires Run(START, events).workers[i].stage != Done
    ensures var w := Run(START, events);
            !InFlight(w, i) <==> w.workers[i].kind == Login && w.workers[i].generation in AllGivenUp(START, events)
  {
    assert Inv(START) && Strayed(START, {});
    hide Inv, Next;
    RunKeepsStrayed(START, events, {});
    assert {} + AllGivenUp(START, events) == AllGivenUp(START, events);
  }

  /** So two requests are with the daemon at once only if the older is a login that was given up. */
  lemma TwoRequestsAtOnce(events: seq<Event>, i: nat, j: nat)
    requires ValidRun(START, events) && i < j < |Run(START, events).workers|
    requires Run(START, events).workers[i].stage == Requesting && Run(START, events).workers[j].stage == Requesting
    ensures var w := Run(START, events);
            w.workers[i].kind == Login && w.workers[i].generation in AllGivenUp(START, events) && !InFlight(w, i)
  {
    RunKeeps(START, events);
    RunsOnIffGivenUp(events, i);
  }

  lemma OneMoreBefore(w: World, e: Event, rest: seq<Event>)
    requires Enabled(w, e) && ValidRun(Next(w, e), rest)
    ensures ValidRun(w, [e] + rest) && Run(w, [e] + rest) == Run(Next(w, e), rest)
    ensures AllGivenUp(w, [e] + rest) == GivenUp(w, e) + AllGivenUp(Next(w, e), rest)
  {
    hide Next, Enabled, GivenUp;
    assert ([e] + rest)[1..] == rest;
  }

  /** A login starts, is given up, and completes all the same. */
  function LateLogin(reply: StatusReply): seq<Event> {
    [UserPosts(StartConnect), ExecuteNext(reply), UserPosts(Cancel), ExecuteNext(reply), LogsIn(0)]
  }

  /** It does happen: the request of a login that was given up goes out while the controller is idle. */
  lemma GivenUpLoginStillConnects(reply: StatusReply)
    ensures ValidRun(START, LateLogin(reply))
    ensures var w := Run(START, LateLogin(reply));
            !w.fields.working && w.workers == [Worker(1, Login, Requesting)]
            && AllGivenUp(START, LateLogin(reply)) == {1}
  {
    var e := LateLogin(reply);
    var w1 := Next(START, e[0]);
    var w2 := Next(w1, e[1]);
    assert w2.workers == [Worker(1, Login, LoggingIn)] && w2.queue == [] && w2.fields.cancelWork == Some(1);
    var w3 := Next(w2, e[2]);
    var w4 := Next(w3, e[3]);
    assert !w4.fields.working && w4.workers == w2.workers && w4.queue == [];
    hide AfterRefresh;
    var w5 := Next(w4, e[4]);
    assert ValidRun(w5, []) && Run(w5, []) == w5 && AllGivenUp(w5, []) == {};
    hide Run, ValidRun, AllGivenUp;
    OneMoreBefore(w4, e[4], []);
    OneMoreBefore(w3, e[3], [e[4]] + []);
    OneMoreBefore(w2, e[2], [e[3]] + ([e[4]] + []));
    OneMoreBefore(w1, e[1], [e[2]] + ([e[3]] + ([e[4]] + [])));
    OneMoreBefore(START, e[0], [e[1]] + ([e[2]] + ([e[3]] + ([e[4]] + []))));
    assert e == [e[0]] + ([e[1]] + ([e[2]] + ([e[3]] + ([e[4]] + []))));
  }

}
