/** One connection's Revert beside another's Apply, command by command on the same routing table:
    internal/service/netcfg/linux.go, run twice by a daemon that lost one connection and is making the next
    (internal/service/daemon/daemon.go). */
module Overlaps {
  import opened Bytes
  import opened Routes
  import opened NetConfig

  // --- The two configurators ---

  /** What there was before either connection, and what the first one's Apply has left of it. */
  datatype Overlap = Overlap(before: Table, first: Settings, left: Table, ledger: Ledger, second: Settings) {

    /** Both reach the same gateway, over interfaces of their own. */
    ghost predicate Valid() {
      && first.gateway == second.gateway && first.gateway.Some? && first.dev != second.dev
      && NoRouteOver(before, first.dev) && NoRouteOver(before, second.dev)
      && Left(first, before, left, ledger) && ledger.applied
    }
  }

  /** How far the second Apply is. */
  datatype Stage = Looking | Pinning(now: Route) | Raising | Adding | Ended(err: Option<NetError>)

  datatype Undoing = Unpinning | Lowering | Undone

  /** What decides the table: the route the second has pinned the gateway to, how many destinations it has
      offered, and how many it had when each of the first one's commands was carried out. */
  datatype Past = Past(own: Option<Route>, offered: nat, unpinnedAt: Option<nat>, downAt: Option<nat>)

  datatype World = World(routes: Table, stage: Stage, undoing: Undoing, past: Past)

  /** The next command of either side, refused by the kernel for a reason of its own or not. */
  datatype Event = First(refused: bool) | Second(refused: bool)

  function Start(routes: Table, pinned: bool): World {
    World(routes, Looking, if pinned then Unpinning else Lowering, Past(None, 0, None, None))
  }

  /** A route over an interface that is down is always refused. */
  predicate Enabled(o: Overlap, w: World, e: Event) {
    match e
    case First(_) => !w.undoing.Undone?
    case Second(refused) =>
      && !w.stage.Ended?
      && (w.stage.Pinning? && w.stage.now.dev == o.first.dev && w.past.downAt.Some? ==> refused)
  }

  function Fails(w: World, err: NetError): World {
    w.(stage := Ended(Some(err)))
  }

  function Look(s: Settings, w: World, refused: bool): World {
    if s.gateway.None? then w.(stage := Raising)
    else if refused || Resolve(w.routes, s.gateway.value).None? then Fails(w, Unreachable)
    else if Resolve(w.routes, s.gateway.value).value.dev == s.dev then Fails(w, GatewayLoop)
    else w.(stage := Pinning(Resolve(w.routes, s.gateway.value).value))
  }

  function Pin(g: Addr, w: World, now: Route, refused: bool): World {
    if refused then Fails(w, CommandFailed)
    else if g in w.routes then w.(stage := Raising)
    else w.(stage := Raising, past := w.past.(own := Some(now)), routes := w.routes[g := now])
  }

  /** A destination that has a route is a conflict, or with the two halves a failure. */
  function Offer(s: Settings, w: World, refused: bool): World
    requires w.past.offered < |Wanted(s)|
  {
    var destination := Wanted(s)[w.past.offered];
    var past := w.past.(offered := w.past.offered + 1);
    if refused || destination.None? then Fails(w, CommandFailed)
    else if destination.value !in w.routes then
      w.(routes := w.routes[destination.value := Route(None, s.dev)], past := past)
    else if s.routes != [] then w.(past := past)
    else Fails(w, HalfTaken(destination.value))
  }

  function Check(s: Settings, w: World, refused: bool): World {
    if s.gateway.None? then w.(stage := Ended(None))
    else if refused || Resolve(w.routes, s.gateway.value).None? then Fails(w, Unreachable)
    else if Resolve(w.routes, s.gateway.value).value.dev == s.dev then Fails(w, GatewayCaptured)
    else w.(stage := Ended(None))
  }

  /** The second Apply's next command. Adding its address and raising its link, which leave the routes alone,
      are one step here; it ends with the check, since what follows leaves them alone too. */
  function SecondStep(s: Settings, w: World, refused: bool): World {
    match w.stage
    case Looking => Look(s, w, refused)
    case Pinning(now) => if s.gateway.Some? then Pin(s.gateway.value, w, now, refused) else w
    case Raising => if refused then Fails(w, CommandFailed) else w.(stage := Adding)
    case Adding => if w.past.offered < |Wanted(s)| then Offer(s, w, refused) else Check(s, w, refused)
    case Ended(_) => w
  }

  /** The first Revert's next command: a failing one does not keep it from the other. */
  function FirstStep(s: Settings, w: World, refused: bool): World {
    match w.undoing
    case Unpinning =>
      if refused || s.gateway.None? || s.gateway.value !in w.routes then w.(undoing := Lowering)
      else w.(undoing := Lowering, routes := Without(w.routes, s.gateway.value),
              past := w.past.(unpinnedAt := Some(w.past.offered)))
    case Lowering =>
      if refused then w.(undoing := Undone)
      else w.(undoing := Undone, routes := WithoutDevice(w.routes, s.dev),
              past := w.past.(downAt := Some(w.past.offered)))
    case Undone => w
  }

  function Next(o: Overlap, w: World, e: Event): World {
    match e
    case First(refused) => FirstStep(o.first, w, refused)
    case Second(refused) => SecondStep(o.second, w, refused)
  }

  predicate ValidRun(o: Overlap, w: World, events: seq<Event>)
    decreases |events|
  {
    events == [] || (Enabled(o, w, events[0]) && ValidRun(o, Next(o, w, events[0]), events[1..]))
  }

  function Run(o: Overlap, w: World, events: seq<Event>): World
    decreases |events|
  {
    if events == [] then w else Run(o, Next(o, w, events[0]), events[1..])
  }

  // --- The table at every moment ---

  /** How the gateway is reached before either connection. */
  function Way(o: Overlap): Option<Route> {
    if o.first.gateway.None? then None else Resolve(o.before, o.first.gateway.value)
  }

  /** Destinations that only the first connection has routes for, besides the gateway. */
  function FirstKeys(o: Overlap): set<Prefix> {
    set p | p in o.left && p !in o.before && Some(p) != o.first.gateway
  }

  /** From which of the second's destinations on a prefix is free to be taken. */
  function FreeFrom(o: Overlap, past: Past, p: Prefix): Option<nat> {
    if p in o.before then None
    else if o.first.gateway == Some(p) then
      if past.own.None? then past.unpinnedAt
      else if past.own.value.dev == o.first.dev then past.downAt
      else None
    else if p in o.left then past.downAt
    else Some(0)
  }

  /** The second has offered the prefix since it was free. */
  predicate IsFresh(o: Overlap, past: Past, p: Prefix) {
    var from := FreeFrom(o, past, p);
    && from.Some? && from.value <= past.offered <= |Wanted(o.second)|
    && Some(p) in Wanted(o.second)[from.value..past.offered]
  }

  function Fresh(o: Overlap, past: Past): set<Prefix> {
    set p | p in Keys(Wanted(o.second)) && IsFresh(o, past, p)
  }

  /** The pin that holds the gateway: there before, the first's, or the second's own, unless that one went
      over the first's interface and down with it. */
  function PinNow(o: Overlap, past: Past): Option<Route> {
    if past.own.Some? then if past.own.value.dev == o.first.dev && past.downAt.Some? then None else past.own
    else if past.unpinnedAt.None? then Way(o)
    else None
  }

  /** The route for one prefix, from the past alone. */
  function RouteAt(o: Overlap, past: Past, p: Prefix): Option<Route> {
    if p in o.before then Some(o.before[p])
    else if IsFresh(o, past, p) then Some(Route(None, o.second.dev))
    else if o.first.gateway == Some(p) then PinNow(o, past)
    else if p in o.left && past.downAt.None? then Some(Route(None, o.first.dev))
    else None
  }

  function Lookup(table: Table, p: Prefix): Option<Route> {
    if p in table then Some(table[p]) else None
  }

  ghost predicate TableIs(o: Overlap, routes: Table, past: Past) {
    forall p: Prefix :: Lookup(routes, p) == RouteAt(o, past, p)
  }

  /** The second's pin goes where the gateway was reached at first, or over the first's interface if a route of
      the first's matches the gateway more closely than all there was. */
  predicate IsAWay(o: Overlap, now: Route)
    requires o.first.gateway.Some?
  {
    || Some(now) == Way(o)
    || (now == Route(None, o.first.dev)
        && Longest(FirstKeys(o), o.first.gateway.value) > Longest(o.before.Keys, o.first.gateway.value))
  }

  predicate InOrder(o: Overlap, w: World)
    requires o.first.gateway.Some?
  {
    && w.past.offered <= |Wanted(o.second)|
    && (w.stage.Looking? || w.stage.Pinning? || w.stage.Raising? ==> w.past.offered == 0)
    && (w.stage.Looking? || w.stage.Pinning? ==> w.past.own.None?)
    && (w.stage.Pinning? ==> IsAWay(o, w.stage.now))
    && (w.past.own.Some? ==> IsAWay(o, w.past.own.value) && w.past.unpinnedAt == Some(0))
    && (w.undoing.Unpinning? ==> o.ledger.pinned && w.past.unpinnedAt.None?)
    && (!w.undoing.Undone? ==> w.past.downAt.None?)
    && (w.past.unpinnedAt.Some? ==> w.past.unpinnedAt.value <= w.past.offered && o.first.gateway.value !in o.before)
    && (w.past.downAt.Some? ==> w.past.downAt.value <= w.past.offered)
  }

  ghost predicate Inv(o: Overlap, w: World) {
    o.Valid() && InOrder(o, w) && TableIs(o, w.routes, w.past)
  }

  /** What the first Apply has left, prefix by prefix. */
  lemma FirstLeft(o: Overlap)
    requires o.Valid()
    ensures Way(o).Some? && Way(o).value.dev != o.first.dev && Way(o).value.dev != o.second.dev
    ensures o.first.gateway.value in o.left && o.left[o.first.gateway.value] == Way(o).value
    ensures o.first.gateway.value in o.before ==> o.before[o.first.gateway.value] == Way(o).value
    ensures o.ledger.pinned <==> o.first.gateway.value !in o.before
    ensures forall p :: p in o.before ==> p in o.left && o.left[p] == o.before[p]
    ensures forall p :: p in FirstKeys(o) ==> o.left[p] == Route(None, o.first.dev)
  {
    hide LongestWithin, Wanted;
    PinReaches(o.before, o.first);
    if o.first.gateway.value in o.before {
      HostRouteWins(o.before, o.first.gateway.value);
    }
  }

  lemma StartHolds(o: Overlap)
    requires o.Valid()
    ensures Inv(o, Start(o.left, o.ledger.pinned))
  {
    hide Resolve, Way, Left;
    FirstLeft(o);
  }

  // --- Every step keeps it ---

  lemma LowerKeeps(o: Overlap, w: World, refused: bool)
    requires Inv(o, w) && w.undoing.Lowering?
    ensures Inv(o, FirstStep(o.first, w, refused))
  {
    hide Resolve, Way, Left, Wanted;
    FirstLeft(o);
    var w' := FirstStep(o.first, w, refused);
    forall p: Prefix ensures Lookup(w'.routes, p) == RouteAt(o, w'.past, p) {
      assert Lookup(w.routes, p) == RouteAt(o, w.past, p);
      assert FreeFrom(o, w'.past, p) == FreeFrom(o, w.past, p) || FreeFrom(o, w'.past, p) == Some(w.past.offered);
    }
  }

  lemma UnpinKeeps(o: Overlap, w: World, refused: bool)
    requires Inv(o, w) && w.undoing.Unpinning?
    ensures Inv(o, FirstStep(o.first, w, refused))
  {
    hide Resolve, Way, Left, Wanted;
    FirstLeft(o);
    var w' := FirstStep(o.first, w, refused);
    forall p: Prefix ensures Lookup(w'.routes, p) == RouteAt(o, w'.past, p) {
      assert Lookup(w.routes, p) == RouteAt(o, w.past, p);
      assert FreeFrom(o, w'.past, p) == FreeFrom(o, w.past, p) || FreeFrom(o, w'.past, p) == Some(w.past.offered);
    }
  }

  lemma PinKeeps(o: Overlap, w: World, refused: bool)
    requires Inv(o, w) && w.stage.Pinning? && Enabled(o, w, Second(refused))
    ensures Inv(o, SecondStep(o.second, w, refused))
  {
    hide Resolve, Way, Left, Wanted;
    FirstLeft(o);
    var w' := SecondStep(o.second, w, refused);
    assert Lookup(w.routes, o.first.gateway.value) == RouteAt(o, w.past, o.first.gateway.value);
    forall p: Prefix ensures Lookup(w'.routes, p) == RouteAt(o, w'.past, p) {
      assert Lookup(w.routes, p) == RouteAt(o, w.past, p);
      assert !IsFresh(o, w.past, p) && !IsFresh(o, w'.past, p);
    }
  }

  lemma OfferKeeps(o: Overlap, w: World, refused: bool)
    requires Inv(o, w) && w.stage.Adding? && w.past.offered < |Wanted(o.second)|
    ensures Inv(o, SecondStep(o.second, w, refused))
  {
    hide Resolve, Way, Left, Wanted, IsFresh, FreeFrom, RouteAt, IsAWay;
    var w' := SecondStep(o.second, w, refused);
    if w'.past != w.past {
      FreeOrTaken(o, w, Wanted(o.second)[w.past.offered].value);
      forall p: Prefix ensures Lookup(w'.routes, p) == RouteAt(o, w'.past, p) {
        assert Lookup(w.routes, p) == RouteAt(o, w.past, p);
        FreeOrTaken(o, w, p);
        OneMoreOffered(o, w.past, p);
      }
    }
  }

  lemma FreeOrTaken(o: Overlap, w: World, p: Prefix)
    requires Inv(o, w)
    ensures FreeFrom(o, w.past, p).Some? ==> FreeFrom(o, w.past, p).value <= w.past.offered
    ensures p !in w.routes <==> FreeFrom(o, w.past, p).Some? && !IsFresh(o, w.past, p)
    ensures IsFresh(o, w.past, p) ==> p in w.routes && w.routes[p] == Route(None, o.second.dev)
  {
    hide Resolve, Left, Wanted, Way;
    FirstLeft(o);
    assert Lookup(w.routes, p) == RouteAt(o, w.past, p);
  }

  /** What is free when its turn comes is the second's from then on; nothing else changes. */
  lemma OneMoreOffered(o: Overlap, past: Past, p: Prefix)
    requires past.offered < |Wanted(o.second)|
    requires FreeFrom(o, past, p).Some? ==> FreeFrom(o, past, p).value <= past.offered
    ensures var past' := past.(offered := past.offered + 1);
            && (IsFresh(o, past', p) <==>
                  IsFresh(o, past, p) || (FreeFrom(o, past, p).Some? && Some(p) == Wanted(o.second)[past.offered]))
            && RouteAt(o, past', p)
               == if IsFresh(o, past', p) then Some(Route(None, o.second.dev)) else RouteAt(o, past, p)
  {
    hide Resolve, Wanted, Way;
    var from := FreeFrom(o, past, p);
    if from.Some? {
      var wanted := Wanted(o.second);
      assert wanted[from.value..past.offered + 1] == wanted[from.value..past.offered] + [wanted[past.offered]];
    }
  }

  // --- Where every address goes, at every moment ---

  function Firsts(o: Overlap, past: Past): set<Prefix> {
    if past.downAt.Some? then {} else FirstKeys(o)
  }

  /** The routing function while both are at work, from the past alone. */
  function Carrier(o: Overlap, past: Past, a: Addr): Option<Route> {
    var was, first, second := Longest(o.before.Keys, a), Longest(Firsts(o, past), a), Longest(Fresh(o, past), a);
    if o.first.gateway == Some(a) && PinNow(o, past).Some? then PinNow(o, past)
    else if second > Max(was, first) then Some(Route(None, o.second.dev))
    else if first > was then Some(Route(None, o.first.dev))
    else Resolve(o.before, a)
  }

  lemma CarrierIsRight(o: Overlap, w: World, a: Addr)
    requires Inv(o, w)
    ensures Resolve(w.routes, a) == Carrier(o, w.past, a)
  {
    hide Left, Wanted, LongestWithin, Inv, PinNow, Fresh, Firsts;
    var firsts, seconds, pins := Firsts(o, w.past), Fresh(o, w.past), Pins(o, w.past);
    KeysNow(o, w);
    var found := o.before.Keys + firsts + seconds;
    LongestOfUnion(o.before.Keys + firsts, seconds, a, 32);
    LongestOfUnion(o.before.Keys, firsts, a, 32);
    LongestOfUnion(found, pins, a, 32);
    if a in pins {
      HostRouteWins(w.routes, a);
    } else {
      assert forall p: Prefix :: |p| == 32 && p <= a ==> p == a;
      NothingMatches(pins, a, 32);
      assert Longest(w.routes.Keys, a) == Longest(found, a);
    }
  }

  function Pins(o: Overlap, past: Past): set<Prefix> {
    if o.first.gateway.Some? && PinNow(o, past).Some? then {o.first.gateway.value} else {}
  }

  lemma {:induction false} NothingMatches(keys: set<Prefix>, a: Addr, n: nat)
    requires n <= 32 && forall p :: p in keys ==> !(p <= a)
    ensures LongestWithin(keys, a, n) == -1
  {
    assert a[..n] <= a;
    if n > 0 {
      NothingMatches(keys, a, n - 1);
    }
  }

  /** Who has a route for what. */
  lemma KeysNow(o: Overlap, w: World)
    requires Inv(o, w)
    ensures w.routes.Keys == o.before.Keys + Firsts(o, w.past) + Fresh(o, w.past) + Pins(o, w.past)
    ensures forall p :: p in o.before ==> w.routes[p] == o.before[p]
    ensures forall p :: p in Firsts(o, w.past) ==> w.routes[p] == Route(None, o.first.dev)
    ensures forall p :: p in Fresh(o, w.past) ==> w.routes[p] == Route(None, o.second.dev)
    ensures forall p :: p in Pins(o, w.past) ==> Some(w.routes[p]) == PinNow(o, w.past)
  {
    hide Resolve, Left, Wanted, Way, IsAWay, IsFresh, FreeFrom, PinNow, Fresh;
    FirstLeft(o);
    PinIsElsewhere(o, w);
    forall p: Prefix
      ensures Lookup(w.routes, p) == RouteAt(o, w.past, p)
      ensures p in Fresh(o, w.past) <==> IsFresh(o, w.past, p)
      ensures IsFresh(o, w.past, p) ==> p !in o.before && p !in Firsts(o, w.past) && p !in Pins(o, w.past)
    {
      FreshIsFree(o, w.past, p);
    }
  }

  /** What the second has taken nobody else has. */
  lemma FreshIsFree(o: Overlap, past: Past, p: Prefix)
    ensures p in Fresh(o, past) <==> IsFresh(o, past, p)
    ensures IsFresh(o, past, p) ==> p !in o.before && p !in Firsts(o, past) && p !in Pins(o, past)
  {
    hide Resolve, Wanted, Way;
  }

  // --- Every run ---

  lemma LookKeeps(o: Overlap, w: World, refused: bool)
    requires Inv(o, w) && w.stage.Looking?
    ensures Inv(o, SecondStep(o.second, w, refused))
  {
    hide Resolve, Left, Wanted, LongestWithin, RouteAt;
    var g := o.first.gateway.value;
    CarrierIsRight(o, w, g);
    assert Fresh(o, w.past) == {};
    NothingMatches({}, g, 32);
  }

  lemma StepKeeps(o: Overlap, w: World, e: Event)
    requires Inv(o, w) && Enabled(o, w, e)
    ensures Inv(o, Next(o, w, e))
  {
    hide Resolve, Left, Wanted, TableIs, IsAWay;
    match e
    case First(refused) =>
      if w.undoing.Unpinning? {
        UnpinKeeps(o, w, refused);
      } else {
        LowerKeeps(o, w, refused);
      }
    case Second(refused) =>
      match w.stage
      case Looking => LookKeeps(o, w, refused);
      case Pinning(_) => PinKeeps(o, w, refused);
      case Adding =>
        if w.past.offered < |Wanted(o.second)| {
          OfferKeeps(o, w, refused);
        }
      case _ =>
  }

  lemma {:induction false} RunKeeps(o: Overlap, w: World, events: seq<Event>)
    requires Inv(o, w) && ValidRun(o, w, events)
    ensures Inv(o, Run(o, w, events))
    decreases |events|
  {
    hide Inv, Next, Enabled;
    if events != [] {
      StepKeeps(o, w, events[0]);
      RunKeeps(o, Next(o, w, events[0]), events[1..]);
    }
  }

  /** In every order of the two sides' commands, failing ones included, and at every moment. */
  lemma RoutingAtEveryMoment(o: Overlap, events: seq<Event>, a: Addr)
    requires o.Valid() && ValidRun(o, Start(o.left, o.ledger.pinned), events)
    ensures var w := Run(o, Start(o.left, o.ledger.pinned), events);
            Resolve(w.routes, a) == Carrier(o, w.past, a)
  {
    hide Inv, Resolve, Carrier;
    StartHolds(o);
    RunKeeps(o, Start(o.left, o.ledger.pinned), events);
    CarrierIsRight(o, Run(o, Start(o.left, o.ledger.pinned), events), a);
  }

  /** The check fails exactly when no pin holds the gateway any more and a destination of the second's, taken
      since it was free, matches the gateway more closely than everything else that is there. */
  lemma CheckVerdict(o: Overlap, events: seq<Event>)
    requires o.Valid() && ValidRun(o, Start(o.left, o.ledger.pinned), events)
    ensures var w := Run(o, Start(o.left, o.ledger.pinned), events);
            var g := o.first.gateway.value;
            w.stage.Adding? && w.past.offered == |Wanted(o.second)| ==>
              Next(o, w, Second(false)).stage
              == Ended(if PinNow(o, w.past).None?
                          && Longest(Fresh(o, w.past), g)
                             > Max(Longest(o.before.Keys, g), Longest(Firsts(o, w.past), g))
                       then Some(GatewayCaptured) else None)
  {
    hide Inv, Resolve, Fresh, Firsts, PinNow;
    var w := Run(o, Start(o.left, o.ledger.pinned), events);
    RoutingAtEveryMoment(o, events, o.first.gateway.value);
    FirstLeft(o);
    StartHolds(o);
    RunKeeps(o, Start(o.left, o.ledger.pinned), events);
    PinIsElsewhere(o, w);
  }

  lemma PinIsElsewhere(o: Overlap, w: World)
    requires Inv(o, w)
    ensures PinNow(o, w.past).Some? ==> PinNow(o, w.past).value.dev != o.second.dev
    ensures w.past.downAt.Some? && PinNow(o, w.past).Some? ==> PinNow(o, w.past) == Way(o)
    ensures o.first.gateway.value in o.before ==> PinNow(o, w.past) == Way(o)
  {
    hide Resolve, Left, TableIs;
    FirstLeft(o);
  }

  /** Once the first interface is down, for every address: the second tunnel carries what matches a destination
      it has taken more closely than anything at first, except that a pin still holds the gateway. */
  lemma WhenTheFirstIsGone(o: Overlap, events: seq<Event>, a: Addr)
    requires o.Valid() && ValidRun(o, Start(o.left, o.ledger.pinned), events)
    ensures var w := Run(o, Start(o.left, o.ledger.pinned), events);
            w.past.downAt.Some? ==>
              Resolve(w.routes, a)
              == if (o.first.gateway == Some(a) && PinNow(o, w.past).Some?)
                    || Longest(Fresh(o, w.past), a) <= Longest(o.before.Keys, a)
                 then Resolve(o.before, a) else Some(Route(None, o.second.dev))
  {
    hide Inv, Resolve, Fresh, PinNow;
    var w := Run(o, Start(o.left, o.ledger.pinned), events);
    RoutingAtEveryMoment(o, events, a);
    StartHolds(o);
    RunKeeps(o, Start(o.left, o.ledger.pinned), events);
    PinIsElsewhere(o, w);
    NothingMatches({}, a, 32);
  }

  // --- A check that passes and does not last ---

  lemma {:induction false} RunOnward(o: Overlap, w: World, a: seq<Event>, b: seq<Event>)
    requires ValidRun(o, w, a) && ValidRun(o, Run(o, w, a), b)
    ensures ValidRun(o, w, a + b) && Run(o, w, a + b) == Run(o, Run(o, w, a), b)
    decreases |a|
  {
    hide Next, Enabled;
    if a == [] {
      assert a + b == b;
    } else {
      assert (a + b)[1..] == a[1..] + b;
      RunOnward(o, Next(o, w, a[0]), a[1..], b);
    }
  }

  function Quietly(n: nat): seq<Event> {
    seq(n, i => Second(false))
  }

  /** Nothing is in the way of what the second has yet to offer, if that matters to it. */
  predicate Unhindered(s: Settings, w: World) {
    && None !in Wanted(s)
    && (s.routes == [] ==>
          Distinct(Wanted(s)) && forall i :: w.past.offered <= i < |Wanted(s)| ==> Wanted(s)[i].value !in w.routes)
  }

  lemma {:induction false} AllAreOffered(o: Overlap, w: World)
    requires w.stage.Adding? && w.past.offered <= |Wanted(o.second)| && Unhindered(o.second, w)
    ensures var events := Quietly(|Wanted(o.second)| - w.past.offered);
            && ValidRun(o, w, events)
            && Run(o, w, events)
               == w.(routes := Run(o, w, events).routes, past := w.past.(offered := |Wanted(o.second)|))
    decreases |Wanted(o.second)| - w.past.offered
  {
    hide Resolve, Wanted;
    var n := |Wanted(o.second)| - w.past.offered;
    if n > 0 {
      assert Quietly(n)[1..] == Quietly(n - 1);
      var wanted, next := Wanted(o.second), Next(o, w, Second(false));
      assert forall i :: 0 <= i < |wanted| ==> wanted[i] in wanted && wanted[i].Some?;
      forall i | o.second.routes == [] && w.past.offered < i < |wanted| ensures wanted[i].value !in next.routes {
        assert wanted[i] != wanted[w.past.offered];
      }
      AllAreOffered(o, next);
    }
  }

  lemma ForeseenIsUnhindered(s: Settings, w: World, table: Table)
    requires ForeseenRoutes(s, table).None?
    requires forall p :: p in w.routes && |p| < 32 ==> p in table
    ensures Unhindered(s, w)
  {
    assert [false][0] != [true][0];
    assert s.routes == [] && s.fullTunnel ==> Wanted(s)[0].value == [false] && Wanted(s)[1].value == [true];
  }

  /** An opening up to the first destination, and then all of them. */
  lemma OfferedAfter(o: Overlap, opening: seq<Event>) returns (events: seq<Event>)
    requires o.Valid() && ValidRun(o, Start(o.left, o.ledger.pinned), opening)
    requires var w := Run(o, Start(o.left, o.ledger.pinned), opening);
             w.stage.Adding? && w.past.offered == 0 && Unhindered(o.second, w)
    ensures var start := Start(o.left, o.ledger.pinned);
            var w, w' := Run(o, start, opening), Run(o, start, events);
            && ValidRun(o, start, events) && Inv(o, w')
            && w' == w.(routes := w'.routes, past := w.past.(offered := |Wanted(o.second)|))
  {
    hide Resolve, Wanted, Left, Inv, Unhindered;
    var start := Start(o.left, o.ledger.pinned);
    StartHolds(o);
    AllAreOffered(o, Run(o, start, opening));
    RunOnward(o, start, opening, Quietly(|Wanted(o.second)|));
    events := opening + Quietly(|Wanted(o.second)|);
    RunKeeps(o, start, events);
  }

  predicate CapturedAfterSuccess(o: Overlap, w: World) {
    && w.stage == Ended(None) && o.first.gateway.Some?
    && Resolve(w.routes, o.first.gateway.value) == Some(Route(None, o.second.dev))
  }

  predicate PinLostAfterSuccess(o: Overlap, w: World) {
    CapturedAfterSuccess(o, w) && w.past.own.Some?
  }

  /** Both want the gateway's surroundings more closely than anything at first, and the second some of them
      that the first does not. */
  ghost predicate BothSurroundTheGateway(o: Overlap) {
    && o.Valid() && ForeseenRoutes(o.second, o.left).None?
    && var g := o.first.gateway.value;
    && Longest(FirstKeys(o), g) > Longest(o.before.Keys, g)
    && Longest(NewKeys(o.left, Wanted(o.second)), g) > Longest(o.before.Keys, g)
  }

  lemma SurroundedIsPinned(o: Overlap, keys: set<Prefix>)
    requires o.Valid() && Longest(keys, o.first.gateway.value) > Longest(o.before.Keys, o.first.gateway.value)
    ensures o.ledger.pinned
  {
    hide Resolve, Wanted;
    FirstLeft(o);
    var g := o.first.gateway.value;
    if g in o.before {
      NothingLonger(o.before.Keys, g, 32, g);
    }
  }

  /** The first's pin goes before the second looks, and the first's interface stays up. */
  const BETWEEN: seq<Event> := [First(false), Second(false), Second(false), Second(false)]

  lemma PinnedToTheFirst(o: Overlap)
    requires BothSurroundTheGateway(o) && o.ledger.pinned
    ensures var start, w := Start(o.left, true), Run(o, Start(o.left, true), BETWEEN);
            && ValidRun(o, start, BETWEEN) && Unhindered(o.second, w)
            && w == World(w.routes, Adding, Lowering, Past(Some(Route(None, o.first.dev)), 0, Some(0), None))
  {
    hide Resolve, Wanted, Left, Unhindered, ForeseenRoutes;
    var start, g := Start(o.left, true), o.first.gateway.value;
    StartHolds(o);
    FirstLeft(o);
    var w1 := Next(o, start, First(false));
    UnpinKeeps(o, start, false);
    CarrierIsRight(o, w1, g);
    assert Fresh(o, w1.past) == {};
    NothingMatches({}, g, 32);
    var w2 := Next(o, w1, Second(false));
    assert w2.stage == Pinning(Route(None, o.first.dev));
    var w3 := Next(o, w2, Second(false));
    var w4 := Next(o, w3, Second(false));
    assert BETWEEN[1..][1..][1..][1..] == [];
    ForeseenIsUnhindered(o.second, w4, o.left);
  }

  /** While a pin holds elsewhere the check passes; with none left and the first interface down, the second has
      what the first did not take, or all that it could, if it offered nothing before. */
  lemma HeldAndThenCaptured(o: Overlap, past: Past)
    requires o.Valid() && past.offered == |Wanted(o.second)|
    ensures PinNow(o, past).Some? ==> Carrier(o, past, o.first.gateway.value) == PinNow(o, past)
    ensures past.downAt == Some(past.offered) && PinNow(o, past).None?
            && (past.own.None? ==> past.unpinnedAt == Some(past.offered))
            && Longest(NewKeys(o.left, Wanted(o.second)), o.first.gateway.value)
               > Longest(o.before.Keys, o.first.gateway.value) ==>
              Carrier(o, past, o.first.gateway.value) == Some(Route(None, o.second.dev))
  {
    hide Resolve, Wanted, Left, Way, LongestWithin;
    FirstLeft(o);
    if past.downAt == Some(past.offered) && PinNow(o, past).None?
       && (past.own.None? ==> past.unpinnedAt == Some(past.offered)) {
      assert Wanted(o.second)[0..past.offered] == Wanted(o.second);
      assert Wanted(o.second)[past.offered..past.offered] == [];
      assert Fresh(o, past) == NewKeys(o.left, Wanted(o.second));
      NothingMatches({}, o.first.gateway.value, 32);
    }
  }

  /** Then there is always an order in which the second pins the gateway to the first's interface, its Apply
      succeeds, and the interface takes the pin down with it: the tunnel carries itself. */
  lemma PinnedAndYetCaptured(o: Overlap) returns (events: seq<Event>)
    requires BothSurroundTheGateway(o)
    ensures ValidRun(o, Start(o.left, o.ledger.pinned), events)
    ensures PinLostAfterSuccess(o, Run(o, Start(o.left, o.ledger.pinned), events))
  {
    hide Resolve, Wanted, Left, Inv, Carrier, Longest, NewKeys, FirstKeys, NoRouteOver, Unhindered, ForeseenRoutes;
    var start, g := Start(o.left, o.ledger.pinned), o.first.gateway.value;
    SurroundedIsPinned(o, FirstKeys(o));
    PinnedToTheFirst(o);
    events := OfferedAfter(o, BETWEEN);
    var offered := Run(o, start, events);
    CarrierIsRight(o, offered, g);
    HeldAndThenCaptured(o, offered.past);
    assert Next(o, offered, Second(false)) == offered.(stage := Ended(None));
    var last := [Second(false), First(false)];
    assert last[1..] == [First(false)] && last[1..][1..] == [];
    RunOnward(o, start, events, last);
    events := events + last;
    StartHolds(o);
    RunKeeps(o, start, events);
    CarrierIsRight(o, Run(o, start, events), g);
    HeldAndThenCaptured(o, Run(o, start, events).past);
  }

  // --- In some order ---

  /** How the second Apply got where it is: everything offered was readable, a half was free, and the check
      has found what it found. */
  ghost predicate Told(o: Overlap, w: World)
    requires o.first.gateway.Some?
  {
    var past, wanted, g := w.past, Wanted(o.second), o.first.gateway.value;
    && past.offered <= |wanted|
    && (forall i :: 0 <= i < past.offered ==> wanted[i].Some?)
    && (o.second.routes == [] ==> forall i :: 0 <= i < past.offered ==> IsFresh(o, past, wanted[i].value))
    && (w.stage == Ended(None) || w.stage == Ended(Some(GatewayCaptured)) ==> past.offered == |wanted|)
    && (w.stage == Ended(Some(GatewayCaptured)) ==> Longest(Keys(wanted), g) > Longest(o.before.Keys, g))
    && (w.stage == Ended(None) ==> !IsFresh(o, past, g))
    && (w.stage == Ended(None) && past.downAt.Some? && past.downAt.value < past.offered ==>
          Carrier(o, past, g) != Some(Route(None, o.second.dev)))
  }

  lemma UndoingLeavesFresh(o: Overlap, w: World, refused: bool, p: Prefix)
    requires Inv(o, w)
    ensures IsFresh(o, FirstStep(o.first, w, refused).past, p) <==> IsFresh(o, w.past, p)
  {
    hide Resolve, Wanted, Way, Left, TableIs;
  }

  /** A host route of the second's to the gateway leaves no room for another. */
  lemma FreshGatewayIsCaptured(o: Overlap, past: Past)
    requires o.first.gateway.Some? && IsFresh(o, past, o.first.gateway.value)
    ensures Carrier(o, past, o.first.gateway.value) == Some(Route(None, o.second.dev))
  {
    hide Resolve, Wanted, LongestWithin, IsFresh, PinNow, Fresh, Firsts;
    var g := o.first.gateway.value;
    FreshIsFree(o, past, g);
    assert g[..32] == g;
    NothingLonger(Fresh(o, past), g, 32, g);
  }

  lemma MoreKeysMatchMore(keys: set<Prefix>, more: set<Prefix>, a: Addr)
    requires keys <= more
    ensures Longest(keys, a) <= Longest(more, a)
  {
    LongestOfUnion(keys, more, a, 32);
    assert keys + more == more;
  }

  lemma CheckIsTold(o: Overlap, w: World, refused: bool)
    requires Inv(o, w) && Told(o, w) && w.stage.Adding? && w.past.offered == |Wanted(o.second)|
    ensures Told(o, SecondStep(o.second, w, refused))
  {
    hide Resolve, Wanted, Left, TableIs, FreeFrom, IsFresh, LongestWithin;
    var g := o.first.gateway.value;
    CarrierIsRight(o, w, g);
    FirstLeft(o);
    PinIsElsewhere(o, w);
    MoreKeysMatchMore(Fresh(o, w.past), Keys(Wanted(o.second)), g);
    if IsFresh(o, w.past, g) {
      FreshGatewayIsCaptured(o, w.past);
    }
  }

  lemma OfferIsTold(o: Overlap, w: World, refused: bool)
    requires Inv(o, w) && Told(o, w) && w.stage.Adding? && w.past.offered < |Wanted(o.second)|
    ensures Told(o, SecondStep(o.second, w, refused))
  {
    hide Resolve, Wanted, Left, TableIs, FreeFrom, IsFresh, LongestWithin, Carrier;
    var w' := SecondStep(o.second, w, refused);
    if w'.past != w.past && o.second.routes == [] {
      forall i | 0 <= i < w'.past.offered ensures IsFresh(o, w'.past, Wanted(o.second)[i].value) {
        FreeOrTaken(o, w, Wanted(o.second)[i].value);
        OneMoreOffered(o, w.past, Wanted(o.second)[i].value);
      }
    }
  }

  lemma UndoingIsTold(o: Overlap, w: World, refused: bool)
    requires Inv(o, w) && Told(o, w)
    ensures Told(o, FirstStep(o.first, w, refused))
  {
    hide Resolve, Wanted, Left, TableIs, FreeFrom, IsFresh, LongestWithin, Carrier;
    var w' := FirstStep(o.first, w, refused);
    forall p: Prefix ensures IsFresh(o, w'.past, p) <==> IsFresh(o, w.past, p) {
      UndoingLeavesFresh(o, w, refused, p);
    }
  }

  lemma StepIsTold(o: Overlap, w: World, e: Event)
    requires Inv(o, w) && Told(o, w) && Enabled(o, w, e)
    ensures Told(o, Next(o, w, e))
  {
    hide Resolve, Wanted, Left, TableIs, FreeFrom, IsFresh, LongestWithin, Carrier, IsAWay;
    match e
    case First(refused) => UndoingIsTold(o, w, refused);
    case Second(refused) =>
      if w.stage.Adding? && w.past.offered < |Wanted(o.second)| {
        OfferIsTold(o, w, refused);
      } else if w.stage.Adding? {
        CheckIsTold(o, w, refused);
      }
  }

  lemma {:induction false} RunIsTold(o: Overlap, w: World, events: seq<Event>)
    requires Inv(o, w) && Told(o, w) && ValidRun(o, w, events)
    ensures Inv(o, Run(o, w, events)) && Told(o, Run(o, w, events))
    decreases |events|
  {
    hide Inv, Told, Next, Enabled;
    if events != [] {
      StepKeeps(o, w, events[0]);
      StepIsTold(o, w, events[0]);
      RunIsTold(o, Next(o, w, events[0]), events[1..]);
    }
  }

  /** In some order of the two sides' commands the second's check finds its gateway captured, exactly when what
      the second wants, which it could have had on its own, matches the gateway more closely than anything at
      first. */
  lemma CheckCanFailIff(o: Overlap)
    requires o.Valid()
    ensures (exists events: seq<Event> ::
               && ValidRun(o, Start(o.left, o.ledger.pinned), events)
               && Run(o, Start(o.left, o.ledger.pinned), events).stage == Ended(Some(GatewayCaptured)))
            <==> ForeseenRoutes(o.second, o.before).None?
                 && Longest(Keys(Wanted(o.second)), o.first.gateway.value)
                    > Longest(o.before.Keys, o.first.gateway.value)
  {
    hide Resolve, Wanted, Left, Inv, Told, Next, Enabled, LongestWithin, ForeseenRoutes, TableIs;
    var start := Start(o.left, o.ledger.pinned);
    StartHolds(o);
    StartIsTold(o);
    forall events: seq<Event>
      | ValidRun(o, start, events) && Run(o, start, events).stage == Ended(Some(GatewayCaptured))
      ensures ForeseenRoutes(o.second, o.before).None?
      ensures Longest(Keys(Wanted(o.second)), o.first.gateway.value)
              > Longest(o.before.Keys, o.first.gateway.value)
    {
      RunIsTold(o, start, events);
      CapturedMeans(o, Run(o, start, events));
    }
    if ForeseenRoutes(o.second, o.before).None?
       && Longest(Keys(Wanted(o.second)), o.first.gateway.value)
          > Longest(o.before.Keys, o.first.gateway.value) {
      var events := RevertedBetween(o);
    }
  }

  lemma StartIsTold(o: Overlap)
    requires o.Valid()
    ensures Told(o, Start(o.left, o.ledger.pinned))
  {
  }

  lemma CapturedMeans(o: Overlap, w: World)
    requires Inv(o, w) && Told(o, w) && w.stage == Ended(Some(GatewayCaptured))
    ensures ForeseenRoutes(o.second, o.before).None?
    ensures Longest(Keys(Wanted(o.second)), o.first.gateway.value)
            > Longest(o.before.Keys, o.first.gateway.value)
  {
    hide Resolve, Left, LongestWithin, TableIs, Destinations;
    EverythingWasReadable(o, w);
    if o.second.routes == [] && o.second.fullTunnel {
      assert IsFresh(o, w.past, Wanted(o.second)[0].value) && IsFresh(o, w.past, Wanted(o.second)[1].value);
    }
  }

  lemma EverythingWasReadable(o: Overlap, w: World)
    requires Inv(o, w) && Told(o, w) && w.past.offered == |Wanted(o.second)|
    ensures None !in Wanted(o.second)
  {
  }

  /** The first is gone between the second's look at its pin and the second's first route. */
  lemma RevertedBetween(o: Overlap) returns (events: seq<Event>)
    requires o.Valid() && ForeseenRoutes(o.second, o.before).None?
    requires Longest(Keys(Wanted(o.second)), o.first.gateway.value)
             > Longest(o.before.Keys, o.first.gateway.value)
    ensures ValidRun(o, Start(o.left, o.ledger.pinned), events)
    ensures Run(o, Start(o.left, o.ledger.pinned), events).stage == Ended(Some(GatewayCaptured))
  {
    hide Resolve, Wanted, Left, Inv, Carrier, Longest, NoRouteOver, Unhindered, ForeseenRoutes;
    var start, g := Start(o.left, o.ledger.pinned), o.first.gateway.value;
    SurroundedIsPinned(o, Keys(Wanted(o.second)));
    RevertedWhilePinning(o);
    events := OfferedAfter(o, AFTER_THE_PIN);
    var offered := Run(o, start, events);
    CarrierIsRight(o, offered, g);
    AllOfItIsFresh(o, offered.past);
    assert [Second(false)][1..] == [];
    RunOnward(o, start, events, [Second(false)]);
    events := events + [Second(false)];
  }

  const AFTER_THE_PIN: seq<Event> := [Second(false), Second(false), First(false), First(false), Second(false)]

  lemma RevertedWhilePinning(o: Overlap)
    requires o.Valid() && o.ledger.pinned && ForeseenRoutes(o.second, o.before).None?
    ensures var start, w := Start(o.left, true), Run(o, Start(o.left, true), AFTER_THE_PIN);
            && ValidRun(o, start, AFTER_THE_PIN) && Unhindered(o.second, w)
            && w == World(w.routes, Adding, Undone, Past(None, 0, Some(0), Some(0)))
  {
    hide Resolve, Wanted, Left, Unhindered, ForeseenRoutes;
    var start, g := Start(o.left, true), o.first.gateway.value;
    StartHolds(o);
    FirstLeft(o);
    HostRouteWins(o.left, g);
    var w1 := Next(o, start, Second(false));
    assert w1.stage == Pinning(Way(o).value);
    var w2 := Next(o, w1, Second(false));
    var w3 := Next(o, w2, First(false));
    var w4 := Next(o, w3, First(false));
    var w5 := Next(o, w4, Second(false));
    assert AFTER_THE_PIN[1..][1..][1..][1..][1..] == [];
    assert forall p :: p in w5.routes ==> p in o.left && p !in FirstKeys(o) && p in o.before;
    ForeseenIsUnhindered(o.second, w5, o.before);
  }

  lemma AllOfItIsFresh(o: Overlap, past: Past)
    requires o.Valid() && past == Past(None, |Wanted(o.second)|, Some(0), Some(0))
    requires Longest(Keys(Wanted(o.second)), o.first.gateway.value)
             > Longest(o.before.Keys, o.first.gateway.value)
    ensures Carrier(o, past, o.first.gateway.value) == Some(Route(None, o.second.dev))
  {
    hide Resolve, Wanted, Left, Way, LongestWithin;
    var g := o.first.gateway.value;
    var n := Longest(Keys(Wanted(o.second)), g);
    assert Wanted(o.second)[0..past.offered] == Wanted(o.second);
    if g[..n] in o.before {
      NothingLonger(o.before.Keys, g, 32, g[..n]);
    }
    NothingLonger(Fresh(o, past), g, 32, g[..n]);
    NothingMatches({}, g, 32);
  }

  /** In some order the gateway goes through the second's tunnel although the second's Apply succeeded, exactly
      when what it could still have beside the first matches the gateway more closely than anything at first. */
  lemma SuccessCanBeCapturedIff(o: Overlap)
    requires o.Valid()
    ensures (exists events: seq<Event> ::
               && ValidRun(o, Start(o.left, o.ledger.pinned), events)
               && CapturedAfterSuccess(o, Run(o, Start(o.left, o.ledger.pinned), events)))
            <==> ForeseenRoutes(o.second, o.left).None?
                 && Longest(NewKeys(o.left, Wanted(o.second)), o.first.gateway.value)
                    > Longest(o.before.Keys, o.first.gateway.value)
  {
    hide Resolve, Wanted, Left, Inv, Told, Next, Enabled, LongestWithin, ForeseenRoutes, TableIs, CapturedAfterSuccess;
    var start := Start(o.left, o.ledger.pinned);
    StartHolds(o);
    StartIsTold(o);
    forall events: seq<Event> | ValidRun(o, start, events) && CapturedAfterSuccess(o, Run(o, start, events))
      ensures ForeseenRoutes(o.second, o.left).None?
      ensures Longest(NewKeys(o.left, Wanted(o.second)), o.first.gateway.value)
              > Longest(o.before.Keys, o.first.gateway.value)
    {
      RunIsTold(o, start, events);
      CapturedAfterSuccessMeans(o, Run(o, start, events));
    }
    if ForeseenRoutes(o.second, o.left).None?
       && Longest(NewKeys(o.left, Wanted(o.second)), o.first.gateway.value)
          > Longest(o.before.Keys, o.first.gateway.value) {
      var events := RevertedAfter(o);
    }
  }

  lemma CapturedAfterSuccessMeans(o: Overlap, w: World)
    requires Inv(o, w) && Told(o, w) && CapturedAfterSuccess(o, w)
    ensures ForeseenRoutes(o.second, o.left).None?
    ensures Longest(NewKeys(o.left, Wanted(o.second)), o.first.gateway.value)
            > Longest(o.before.Keys, o.first.gateway.value)
  {
    hide Resolve, Left, LongestWithin, TableIs, Destinations;
    var g := o.first.gateway.value;
    EverythingWasReadable(o, w);
    CarrierIsRight(o, w, g);
    FirstLeft(o);
    PinIsElsewhere(o, w);
    assert Fresh(o, w.past) <= NewKeys(o.left, Wanted(o.second)) by {
      assert Wanted(o.second)[w.past.offered..w.past.offered] == [];
    }
    MoreKeysMatchMore(Fresh(o, w.past), NewKeys(o.left, Wanted(o.second)), g);
    if o.second.routes == [] && o.second.fullTunnel {
      assert IsFresh(o, w.past, Wanted(o.second)[0].value) && IsFresh(o, w.past, Wanted(o.second)[1].value);
    }
  }

  /** The second's Apply before the first's Revert. */
  lemma RevertedAfter(o: Overlap) returns (events: seq<Event>)
    requires o.Valid() && ForeseenRoutes(o.second, o.left).None?
    requires Longest(NewKeys(o.left, Wanted(o.second)), o.first.gateway.value)
             > Longest(o.before.Keys, o.first.gateway.value)
    ensures ValidRun(o, Start(o.left, o.ledger.pinned), events)
    ensures CapturedAfterSuccess(o, Run(o, Start(o.left, o.ledger.pinned), events))
  {
    hide Resolve, Wanted, Left, Inv, Carrier, Longest, NewKeys, FirstKeys, NoRouteOver, Unhindered, ForeseenRoutes;
    var start, g := Start(o.left, o.ledger.pinned), o.first.gateway.value;
    SurroundedIsPinned(o, NewKeys(o.left, Wanted(o.second)));
    PinnedAlready(o);
    events := OfferedAfter(o, BEFORE_THE_REVERT);
    var offered := Run(o, start, events);
    CarrierIsRight(o, offered, g);
    HeldAndThenCaptured(o, offered.past);
    FirstLeft(o);
    assert Next(o, offered, Second(false)) == offered.(stage := Ended(None));
    KeysNow(o, offered);
    assert g in Pins(o, offered.past) && g in offered.routes;
    var last := [Second(false), First(false), First(false)];
    assert last[1..] == [First(false), First(false)] && last[1..][1..] == [First(false)] && last[1..][1..][1..] == [];
    RunOnward(o, start, events, last);
    events := events + last;
    StartHolds(o);
    RunKeeps(o, start, events);
    CarrierIsRight(o, Run(o, start, events), g);
    HeldAndThenCaptured(o, Run(o, start, events).past);
  }

  const BEFORE_THE_REVERT: seq<Event> := [Second(false), Second(false), Second(false)]

  lemma PinnedAlready(o: Overlap)
    requires o.Valid() && o.ledger.pinned && ForeseenRoutes(o.second, o.left).None?
    ensures var start, w := Start(o.left, true), Run(o, Start(o.left, true), BEFORE_THE_REVERT);
            && ValidRun(o, start, BEFORE_THE_REVERT) && Unhindered(o.second, w)
            && w == World(o.left, Adding, Unpinning, Past(None, 0, None, None))
  {
    hide Resolve, Wanted, Left, Unhindered, ForeseenRoutes;
    var start, g := Start(o.left, true), o.first.gateway.value;
    FirstLeft(o);
    HostRouteWins(o.left, g);
    var w1 := Next(o, start, Second(false));
    assert w1.stage == Pinning(Way(o).value);
    var w2 := Next(o, w1, Second(false));
    var w3 := Next(o, w2, Second(false));
    assert BEFORE_THE_REVERT[1..][1..][1..] == [];
    ForeseenIsUnhindered(o.second, w3, o.left);
  }

  /** That can happen to a gateway the second has pinned itself exactly when, besides, the first's routes match
      it more closely than anything at first. */
  lemma PinnedAndYetCapturedIff(o: Overlap)
    requires o.Valid()
    ensures (exists events: seq<Event> ::
               && ValidRun(o, Start(o.left, o.ledger.pinned), events)
               && PinLostAfterSuccess(o, Run(o, Start(o.left, o.ledger.pinned), events)))
            <==> BothSurroundTheGateway(o)
  {
    hide Resolve, Wanted, Left, Inv, Told, Next, Enabled, LongestWithin, ForeseenRoutes, TableIs, PinLostAfterSuccess;
    var start := Start(o.left, o.ledger.pinned);
    StartHolds(o);
    StartIsTold(o);
    forall events: seq<Event> | ValidRun(o, start, events) && PinLostAfterSuccess(o, Run(o, start, events))
      ensures BothSurroundTheGateway(o)
    {
      RunIsTold(o, start, events);
      LostPinMeans(o, Run(o, start, events));
    }
    if BothSurroundTheGateway(o) {
      var events := PinnedAndYetCaptured(o);
    }
  }

  lemma LostPinMeans(o: Overlap, w: World)
    requires Inv(o, w) && Told(o, w) && PinLostAfterSuccess(o, w)
    ensures BothSurroundTheGateway(o)
  {
    hide Resolve, Wanted, Left, Longest, TableIs, ForeseenRoutes, NewKeys, Fresh;
    CapturedAfterSuccessMeans(o, w);
    CarrierIsRight(o, w, o.first.gateway.value);
    FirstLeft(o);
    PinIsElsewhere(o, w);
  }

  /** There are such overlaps: a default route, a first connection that carries everything, and a second that
      carries the gateway's quarter of it. */
  function Example(): Overlap {
    var g, before := Ones(0), map[[] := Route(None, "eth0")];
    Overlap(
      before, Settings("tun0", g, 0, [], Some(g), [], [], true),
      Overlay(before[g := Route(None, "eth0")], HALVES, "tun0"), Ledger(true, true, 0, []),
      Settings("tun1", g, 0, [Network(g, Ones(2))], Some(g), [], [], false))
  }

  lemma SuchAnOverlapExists()
    ensures BothSurroundTheGateway(Example())
  {
    hide LongestWithin, Destination, Left, FirstKeys, NewKeys, Keys, Overlay;
    var o, g := Example(), Ones(0);
    ExampleIsLeft();
    ExampleKeys();
    NothingLonger(o.before.Keys, g, 32, []);
    NothingLonger(FirstKeys(o), g, 32, [false]);
    NothingLonger(NewKeys(o.left, Wanted(o.second)), g, 32, g[..2]);
    assert g[..1] == [false] && g[..2] <= g;
  }

  lemma ExampleKeys()
    ensures Wanted(Example().second) == [Some(Ones(0)[..2])]
    ensures [false] in FirstKeys(Example())
    ensures Ones(0)[..2] in NewKeys(Example().left, Wanted(Example().second))
  {
    hide LongestWithin, Destination;
    var o, g := Example(), Ones(0);
    TheQuarter(g);
    assert Wanted(o.second) == [Some(g[..2])];
    assert Some(g[..2]) in Wanted(o.second);
    FirstHalf();
    assert |g[..2]| == 2 && |g| == 32;
  }

  lemma FirstHalf()
    ensures [false] in Keys(HALVES) && forall p :: p in Keys(HALVES) ==> |p| == 1
  {
    assert Some([false]) == HALVES[0];
  }

  lemma ExampleIsLeft()
    ensures Left(Example().first, Example().before, Example().left, Example().ledger)
  {
    hide LongestWithin, Overlay;
    var o, g := Example(), Ones(0);
    NothingLonger(o.before.Keys, g, 32, []);
    assert Longest(o.before.Keys, g) == 0 by {
      assert g[..Longest(o.before.Keys, g)] == [];
    }
    assert g != [];
    assert Resolve(o.before, g) == Some(Route(None, "eth0"));
    assert Wanted(o.first)[..|HALVES|] == HALVES;
  }

  lemma TheQuarter(g: Addr)
    ensures Destination(Network(g, Ones(2))) == Some(g[..2])
  {
    MaskLengthIs(Ones(2), 32);
    var n := MaskLength(Ones(2), 32).value;
    OnesAreDistinct(n, 2);
  }

  // --- Either side alone ---

  predicate OwnsItsPin(s: Settings, table: Table, w: World) {
    Reached(table, s) && (w.past.own.Some? <==> PinIsOurs(table, s))
  }

  /** How the second's Apply goes with nobody beside it, so far. */
  ghost predicate Alone(s: Settings, table: Table, w: World) {
    var pinned, n := Pinned(table, s.gateway), w.past.offered;
    match w.stage
    case Looking => w.routes == table && w.past.own.None? && n == 0
    case Pinning(now) =>
      && w.routes == table && w.past.own.None? && n == 0
      && s.gateway.Some? && Resolve(table, s.gateway.value) == Some(now) && Reached(table, s)
    case Raising => w.routes == pinned && OwnsItsPin(s, table, w) && n == 0
    case Adding =>
      && OwnsItsPin(s, table, w) && n <= |Wanted(s)| && w.routes == Overlay(pinned, Wanted(s)[..n], s.dev)
      && forall i :: 0 <= i < n ==>
           Wanted(s)[i].Some? && (s.routes == [] ==> Wanted(s)[i].value !in pinned)
    case Ended(err) =>
      && err == Foreseen(s, table, {}, true)
      && (err.None? ==> OwnsItsPin(s, table, w) && w.routes == Overlay(pinned, Wanted(s), s.dev))
  }

  lemma LookAlone(s: Settings, table: Table, w: World)
    requires Alone(s, table, w) && (w.stage.Looking? || w.stage.Pinning? || w.stage.Raising?)
    ensures Alone(s, table, SecondStep(s, w, false))
  {
    hide Resolve, Wanted, ForeseenRoutes, Overlay;
    OverlayGrows(w.routes, [], [], s.dev);
    assert Wanted(s)[..0] == [];
  }

  lemma OfferAlone(s: Settings, table: Table, w: World)
    requires Alone(s, table, w) && w.stage.Adding? && w.past.offered < |Wanted(s)|
    ensures Alone(s, table, SecondStep(s, w, false))
  {
    hide Resolve, Overlay, Pinned;
    var wanted, n, pinned := Wanted(s), w.past.offered, Pinned(table, s.gateway);
    assert wanted[..n + 1] == wanted[..n] + [wanted[n]];
    if wanted[n].Some? {
      OverlayGrows(pinned, wanted[..n], wanted[n].value, s.dev);
    } else {
      assert wanted[n] in wanted;
    }
    if s.routes == [] {
      assert wanted == HALVES && HALVES[0].value == [false] && HALVES[1].value == [true];
      assert forall h :: h in HALVES ==> h.Some?;
      HalvesAreDistinct(pinned, n, s.dev);
    }
  }

  lemma CheckAlone(s: Settings, table: Table, w: World)
    requires Alone(s, table, w) && w.stage.Adding? && w.past.offered == |Wanted(s)|
    ensures Alone(s, table, SecondStep(s, w, false))
  {
    hide Resolve, Overlay, Pinned;
    assert Wanted(s)[..w.past.offered] == Wanted(s);
    assert s.routes == [] && s.fullTunnel ==> Wanted(s)[0].value == [false] && Wanted(s)[1].value == [true];
    if s.gateway.Some? {
      GatewayStaysPut(table, s);
    }
  }

  /** However many of its commands have run, none refused: if Apply has ended by then, it has ended as foreseen of
      the method, with its address free and the resolver there, and where it succeeded it has left the same. */
  lemma {:induction false} ApplyAlone(s: Settings, table: Table, n: nat)
    ensures Alone(s, table, Steps(s, Start(table, false), n))
  {
    hide Alone;
    if n == 0 {
      assert Alone(s, table, Start(table, false)) by {
        NothingYet(s, table);
      }
    } else {
      ApplyAlone(s, table, n - 1);
      StepAlone(s, table, Steps(s, Start(table, false), n - 1));
    }
  }

  function Steps(s: Settings, w: World, n: nat): World {
    if n == 0 then w else SecondStep(s, Steps(s, w, n - 1), false)
  }

  lemma NothingYet(s: Settings, table: Table)
    ensures Alone(s, table, Start(table, false))
  {
  }

  lemma StepAlone(s: Settings, table: Table, w: World)
    requires Alone(s, table, w)
    ensures Alone(s, table, SecondStep(s, w, false))
  {
    hide Resolve, Overlay, Pinned, Wanted, ForeseenRoutes, ForeseenPin, OwnsItsPin;
    match w.stage
    case Adding =>
      if w.past.offered < |Wanted(s)| {
        OfferAlone(s, table, w);
      } else {
        CheckAlone(s, table, w);
      }
    case Ended(_) =>
    case _ => LookAlone(s, table, w);
  }

  /** How many commands there are still to come. */
  function ToCome(s: Settings, w: World): int {
    match w.stage
    case Looking => |Wanted(s)| + 4
    case Pinning(_) => |Wanted(s)| + 3
    case Raising => |Wanted(s)| + 2
    case Adding => |Wanted(s)| - w.past.offered + 1
    case Ended(_) => 0
  }

  lemma OneFewer(s: Settings, table: Table, w: World)
    requires Alone(s, table, w)
    ensures ToCome(s, w) >= 0 && (ToCome(s, w) == 0 ==> w.stage.Ended?)
    ensures ToCome(s, SecondStep(s, w, false)) <= Max(0, ToCome(s, w) - 1)
  {
    hide Resolve, Overlay, Pinned, Wanted, ForeseenRoutes, ForeseenPin, OwnsItsPin;
  }

  /** Nor does it go on for ever: it takes four commands besides the destinations. */
  lemma ApplyAloneEnds(s: Settings, table: Table)
    ensures Steps(s, Start(table, false), |Wanted(s)| + 4).stage.Ended?
  {
    hide Alone, Wanted;
    FewerAndFewer(s, table, |Wanted(s)| + 4);
    ApplyAlone(s, table, |Wanted(s)| + 4);
    OneFewer(s, table, Steps(s, Start(table, false), |Wanted(s)| + 4));
  }

  lemma {:induction false} FewerAndFewer(s: Settings, table: Table, n: nat)
    ensures ToCome(s, Steps(s, Start(table, false), n)) <= Max(0, |Wanted(s)| + 4 - n)
  {
    hide Alone, Wanted, SecondStep;
    if n > 0 {
      FewerAndFewer(s, table, n - 1);
      ApplyAlone(s, table, n - 1);
      OneFewer(s, table, Steps(s, Start(table, false), n - 1));
    }
  }

  /** The first's Revert alone is over after its commands and leaves what its specification says, whichever of them are
      refused. */
  lemma RevertAlone(s: Settings, table: Table, pinned: bool, refuses: nat -> bool, command: nat)
    requires s.gateway.Some? && PinIsThere(table, s, pinned)
    ensures var w := Start(table, pinned);
            var end := if pinned then FirstStep(s, FirstStep(s, w, refuses(command)), refuses(command + 1))
                       else FirstStep(s, w, refuses(command));
            end.undoing.Undone? && end.routes == Reverted(table, s, pinned, refuses, command)
  {
  }
}
