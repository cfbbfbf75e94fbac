/** Applying a negotiated tunnel's addresses and routes, and taking them back.
    internal/service/netcfg/linux.go, with the kernel behind the `ip` command. */
module NetConfig {
  import opened Bytes
  import opened Routes

  datatype Outcome = Done | Exists | Failed

  datatype Settings = Settings(
    dev: string, localIP: Addr, mtu: int, routes: seq<Network>, gateway: Option<Addr>,
    dns: seq<Addr>, domains: seq<string>, fullTunnel: bool)

  datatype NetError =
    | CommandFailed
    | Unreachable
    | GatewayLoop
    | GatewayCaptured
    | HalfTaken(half: Prefix)
    | NoResolvectl

  /** What resolvectl has been told about an interface. */
  datatype Resolver = Resolver(servers: seq<Addr>, domains: seq<string>)

  /** The system's side. Any command may fail for a reason of its own: the k-th does if refuses(k). A
      command that fails changes nothing. */
  class Kernel {
    const refuses: nat -> bool
    const resolvectl: bool
    var commands: nat
    var routes: Table
    var addresses: set<(Addr, string)>
    var links: map<string, int>
    var dns: map<string, Resolver>

    constructor (refuses: nat -> bool, resolvectl: bool, routes: Table)
      ensures this.routes == routes && this.refuses == refuses && this.resolvectl == resolvectl
    {
      this.refuses, this.resolvectl, this.routes := refuses, resolvectl, routes;
      commands, addresses, links, dns := 0, {}, map[], map[];
    }

    /** No command between the two counts failed for a reason of its own. */
    ghost predicate Smooth(first: nat, next: nat) {
      forall k :: first <= k < next ==> !refuses(k)
    }

    method RouteAdd(destination: Option<Prefix>, route: Route) returns (o: Outcome)
      modifies this`routes, this`commands
      ensures commands == old(commands) + 1
      ensures o == if refuses(old(commands)) || destination.None? then Failed
                   else if destination.value in old(routes) then Exists else Done
      ensures routes == if o == Done then old(routes)[destination.value := route] else old(routes)
    {
      var refused := refuses(commands);
      commands := commands + 1;
      if refused || destination.None? {
        return Failed;
      }
      if destination.value in routes {
        return Exists;
      }
      routes := routes[destination.value := route];
      o := Done;
    }

    method RouteDel(p: Prefix) returns (ok: bool)
      modifies this`routes, this`commands
      ensures commands == old(commands) + 1
      ensures ok <==> !refuses(old(commands)) && p in old(routes)
      ensures routes == if ok then Without(old(routes), p) else old(routes)
    {
      ok := !refuses(commands) && p in routes;
      commands := commands + 1;
      if ok {
        routes := Without(routes, p);
      }
    }

    method RouteGet(a: Addr) returns (r: Option<Route>)
      modifies this`commands
      ensures commands == old(commands) + 1
      ensures r == if refuses(old(commands)) then None else Resolve(routes, a)
    {
      r := if refuses(commands) then None else Resolve(routes, a);
      commands := commands + 1;
    }

    method AddrAdd(a: Addr, dev: string) returns (ok: bool)
      modifies this`addresses, this`commands
      ensures commands == old(commands) + 1
      ensures ok <==> !refuses(old(commands)) && (a, dev) !in old(addresses)
      ensures addresses == if ok then old(addresses) + {(a, dev)} else old(addresses)
    {
      ok := !refuses(commands) && (a, dev) !in addresses;
      commands := commands + 1;
      if ok {
        addresses := addresses + {(a, dev)};
      }
    }

    method LinkUp(dev: string, mtu: int) returns (ok: bool)
      modifies this`links, this`commands
      ensures commands == old(commands) + 1 && (ok <==> !refuses(old(commands)))
      ensures links == if ok then old(links)[dev := mtu] else old(links)
    {
      ok := !refuses(commands);
      commands := commands + 1;
      if ok {
        links := links[dev := mtu];
      }
    }

    /** Taking a link down removes every route over it, and its resolver. */
    method LinkDown(dev: string) returns (ok: bool)
      modifies this`links, this`routes, this`dns, this`commands
      ensures commands == old(commands) + 1 && (ok <==> !refuses(old(commands)))
      ensures links == if ok then old(links) - {dev} else old(links)
      ensures dns == if ok then old(dns) - {dev} else old(dns)
      ensures routes == if ok then WithoutDevice(old(routes), dev) else old(routes)
    {
      ok := !refuses(commands);
      commands := commands + 1;
      if ok {
        links, dns := links - {dev}, dns - {dev};
        routes := WithoutDevice(routes, dev);
      }
    }

    /** The domains an interface has claimed so far. */
    function DomainsOf(dev: string): seq<string>
      reads this
    {
      if dev in dns then dns[dev].domains else []
    }

    method SetServers(dev: string, servers: seq<Addr>) returns (ok: bool)
      modifies this`dns, this`commands
      ensures commands == old(commands) + 1 && (ok <==> !refuses(old(commands)))
      ensures dns == if ok then old(dns)[dev := Resolver(servers, old(DomainsOf(dev)))] else old(dns)
    {
      ok := !refuses(commands);
      commands := commands + 1;
      if ok {
        dns := dns[dev := Resolver(servers, DomainsOf(dev))];
      }
    }

    method SetDomains(dev: string, domains: seq<string>) returns (ok: bool)
      modifies this`dns, this`commands
      ensures commands == old(commands) + 1 && (ok <==> !refuses(old(commands)))
      ensures dns == if ok
                     then old(dns)[dev := Resolver(if dev in old(dns) then old(dns)[dev].servers else [], domains)]
                     else old(dns)
    {
      ok := !refuses(commands);
      commands := commands + 1;
      if ok {
        dns := dns[dev := Resolver(if dev in dns then dns[dev].servers else [], domains)];
      }
    }
  }

  // --- What is asked for ---

  function Destinations(networks: seq<Network>): (wanted: seq<Option<Prefix>>)
    ensures |wanted| == |networks|
  {
    seq(|networks|, i requires 0 <= i < |networks| => Destination(networks[i]))
  }

  /** The published networks, or both halves of the address space, or nothing. */
  function Wanted(s: Settings): seq<Option<Prefix>> {
    if s.routes != [] then Destinations(s.routes) else if s.fullTunnel then HALVES else []
  }

  /** A routing domain claims every name under it; the tilde may be there already. */
  function RoutingDomain(domain: string): string {
    "~" + if domain != "" && domain[0] == '~' then domain[1..] else domain
  }

  function RoutingDomains(domains: seq<string>): (claims: seq<string>)
    ensures |claims| == |domains|
  {
    seq(|domains|, i requires 0 <= i < |domains| => RoutingDomain(domains[i]))
  }

  /** Which names the interface's servers are asked for: all of them in full tunnel. */
  function Claims(s: Settings): seq<string> {
    RoutingDomains(if s.fullTunnel then ["."] else s.domains)
  }

  /** The table with the gateway held to the route that reaches it now. */
  function Pinned(table: Table, gateway: Option<Addr>): Table {
    if gateway.None? || gateway.value in table || Resolve(table, gateway.value).None? then table
    else table[gateway.value := Resolve(table, gateway.value).value]
  }

  /** The gateway is reached, and not over the tunnel. */
  predicate Reached(table: Table, s: Settings) {
    s.gateway.Some? ==>
      Resolve(table, s.gateway.value).Some? && Resolve(table, s.gateway.value).value.dev != s.dev
  }

  function ForeseenPin(s: Settings, table: Table): Option<NetError> {
    if s.gateway.Some? && Resolve(table, s.gateway.value).None? then Some(Unreachable)
    else if !Reached(table, s) then Some(GatewayLoop)
    else None
  }

  function ForeseenRoutes(s: Settings, table: Table): Option<NetError> {
    if None in Wanted(s) then Some(CommandFailed)
    else if s.routes == [] && s.fullTunnel && [false] in table then Some(HalfTaken([false]))
    else if s.routes == [] && s.fullTunnel && [true] in table then Some(HalfTaken([true]))
    else None
  }

  function ForeseenDNS(s: Settings, resolvectl: bool): Option<NetError> {
    if s.dns != [] && !resolvectl then Some(NoResolvectl) else None
  }

  /** Once the gateway is pinned. */
  function ForeseenSetUp(s: Settings, pinned: Table, addresses: set<(Addr, string)>, resolvectl: bool)
    : Option<NetError>
  {
    if (s.localIP, s.dev) in addresses then Some(CommandFailed)
    else if ForeseenRoutes(s, pinned).Some? then ForeseenRoutes(s, pinned)
    else ForeseenDNS(s, resolvectl)
  }

  /** How Apply ends if no command fails for a reason of its own. */
  function Foreseen(s: Settings, table: Table, addresses: set<(Addr, string)>, resolvectl: bool): Option<NetError> {
    if ForeseenPin(s, table).Some? then ForeseenPin(s, table)
    else ForeseenSetUp(s, Pinned(table, s.gateway), addresses, resolvectl)
  }

  /** A step comes out as foreseen unless one of its commands fails for a reason of its own, and it
      succeeds only if none does. */
  predicate Foretold(err: Option<NetError>, foreseen: Option<NetError>, smooth: bool) {
    && (smooth ==> err == foreseen)
    && (err.None? ==> smooth && foreseen.None?)
  }

  // --- What Apply leaves ---

  datatype Ledger = Ledger(applied: bool, pinned: bool, installed: nat, conflicts: seq<Prefix>)

  /** Whether the pin is this configurator's own: added, not found. */
  predicate PinIsOurs(before: Table, s: Settings) {
    s.gateway.Some? && s.gateway.value !in before && Reached(before, s)
  }

  /** The pin gets added and then the address does not: the third command is the one that fails. */
  predicate PinLeaks(s: Settings, before: Table, addresses: set<(Addr, string)>, refuses: nat -> bool, command: nat) {
    && PinIsOurs(before, s) && !refuses(command) && !refuses(command + 1)
    && (refuses(command + 2) || (s.localIP, s.dev) in addresses)
  }

  /** Some first part of what was wanted has been offered to the kernel. */
  ghost predicate Offered(before: Table, after: Table, s: Settings) {
    exists n: nat :: n <= |Wanted(s)| && after == Overlay(before, Wanted(s)[..n], s.dev)
  }

  /** Whatever fails and wherever: until the address is there only the pin can have been added; from then
      on the gateway is pinned and some first part of what was wanted has been offered. */
  ghost predicate Left(s: Settings, before: Table, after: Table, l: Ledger) {
    && (l.pinned ==> PinIsOurs(before, s))
    && (!l.applied ==> after == if l.pinned then Pinned(before, s.gateway) else before)
    && (l.applied ==> Reached(before, s) && l.pinned == PinIsOurs(before, s)
                      && Offered(Pinned(before, s.gateway), after, s))
  }

  /** Everything wanted was offered to the kernel, and what became of each. */
  ghost predicate Added(before: Table, after: Table, s: Settings, installed: nat, conflicts: seq<Prefix>) {
    && None !in Wanted(s)
    && after == Overlay(before, Wanted(s), s.dev)
    && conflicts == (if s.routes != [] then Conflicting(before, Wanted(s)) else [])
    && installed == (if s.routes != [] then |s.routes| - |conflicts| else 0)
    && (s.routes == [] && s.fullTunnel ==> forall h :: h in HALVES ==> h.value !in before)
  }

  ghost predicate Succeeded(s: Settings, before: Table, after: Table, l: Ledger) {
    && l.applied && Reached(before, s) && l.pinned == PinIsOurs(before, s)
    && Added(Pinned(before, s.gateway), after, s, l.installed, l.conflicts)
  }

  class LinuxConfigurator {
    const kernel: Kernel
    var applied: bool
    var settings: Settings
    var gatewayRouteAdded: bool
    var dnsApplied: bool
    var installedRoutes: nat
    var conflicts: seq<Prefix>

    constructor (kernel: Kernel, settings: Settings)
      ensures View() == Ledger(false, false, 0, []) && this.kernel == kernel && !dnsApplied
    {
      this.kernel, this.settings := kernel, settings;
      applied, gatewayRouteAdded, dnsApplied, installedRoutes, conflicts := false, false, false, 0, [];
    }

    function View(): Ledger
      reads this
    {
      Ledger(applied, gatewayRouteAdded, installedRoutes, conflicts)
    }

    /** A configurator is used for one connection. */
    method Apply(s: Settings) returns (err: Option<NetError>)
      requires View() == Ledger(false, false, 0, [])
      modifies this, kernel
      ensures settings == s
      ensures Left(s, old(kernel.routes), kernel.routes, View())
      ensures err.None? ==> Succeeded(s, old(kernel.routes), kernel.routes, View())
      ensures err.None? ==> (s.localIP, s.dev) in kernel.addresses
                            && s.dev in kernel.links && kernel.links[s.dev] == if s.mtu <= 0 then 1400 else s.mtu
      ensures err != Some(GatewayCaptured)
      ensures gatewayRouteAdded && !applied <==>
                PinLeaks(s, old(kernel.routes), old(kernel.addresses), kernel.refuses, old(kernel.commands))
      ensures old(kernel.commands) <= kernel.commands
      ensures Foretold(err, Foreseen(s, old(kernel.routes), old(kernel.addresses), kernel.resolvectl),
                       kernel.Smooth(old(kernel.commands), kernel.commands))
      ensures err.None? && s.dns != [] ==>
                && s.dev in kernel.dns && kernel.dns[s.dev].servers == s.dns
                && kernel.dns[s.dev].domains == (if Claims(s) != [] then Claims(s) else old(kernel.DomainsOf(s.dev)))
    {
      hide Resolve, Overlay, Conflicting, Offered, PinIsOurs, Reached, Pinned, Wanted, Added, Claims;
      hide ForeseenPin, ForeseenSetUp, LongestWithin, Destinations, MaskLength, WithoutDevice;
      settings := s;
      var mtu := if s.mtu <= 0 then 1400 else s.mtu;
      err := PinGatewayRoute();
      if err.Some? {
        return;
      }
      err := SetUp(mtu, old(kernel.routes));
    }

    /** The rest of Apply, once the gateway is pinned. */
    method SetUp(mtu: int, ghost before: Table) returns (err: Option<NetError>)
      requires !applied && conflicts == [] && installedRoutes == 0
      requires Reached(before, settings) && kernel.routes == Pinned(before, settings.gateway)
      modifies this`applied, this`installedRoutes, this`conflicts, this`dnsApplied, kernel
      ensures applied <==> !kernel.refuses(old(kernel.commands))
                           && (settings.localIP, settings.dev) !in old(kernel.addresses)
      ensures if applied then Offered(old(kernel.routes), kernel.routes, settings)
              else kernel.routes == old(kernel.routes)
      ensures err.None? ==>
                && applied && Added(old(kernel.routes), kernel.routes, settings, installedRoutes, conflicts)
                && (settings.localIP, settings.dev) in kernel.addresses
                && settings.dev in kernel.links && kernel.links[settings.dev] == mtu
      ensures err.None? && settings.dns != [] ==>
                && settings.dev in kernel.dns && kernel.dns[settings.dev].servers == settings.dns
                && kernel.dns[settings.dev].domains
                   == (if Claims(settings) != [] then Claims(settings) else old(kernel.DomainsOf(settings.dev)))
      ensures err != Some(GatewayCaptured)
      ensures old(kernel.commands) <= kernel.commands
      ensures Foretold(err, ForeseenSetUp(settings, old(kernel.routes), old(kernel.addresses), kernel.resolvectl),
                       kernel.Smooth(old(kernel.commands), kernel.commands))
    {
      hide Resolve, Overlay, Conflicting, Offered, PinIsOurs, Reached, Pinned, Wanted, Added, Claims;
      hide ForeseenRoutes, ForeseenDNS, LongestWithin, Destinations, MaskLength, WithoutDevice;
      NothingOffered(kernel.routes, settings);
      var ok := kernel.AddrAdd(settings.localIP, settings.dev);
      if !ok {
        return Some(CommandFailed);
      }
      applied := true;
      ok := kernel.LinkUp(settings.dev, mtu);
      if !ok {
        return Some(CommandFailed);
      }
      err := AddRoutes();
      if err.Some? {
        return;
      }
      GatewayStaysReached(before, kernel.routes, settings, installedRoutes, conflicts);
      err := VerifyGatewayIsNotTunnelled();
      if err.Some? {
        return;
      }
      err := ApplyDNS();
    }

    method PinGatewayRoute() returns (err: Option<NetError>)
      requires !gatewayRouteAdded
      modifies this`gatewayRouteAdded, kernel`routes, kernel`commands
      ensures gatewayRouteAdded <==>
                && PinIsOurs(old(kernel.routes), settings)
                && !kernel.refuses(old(kernel.commands)) && !kernel.refuses(old(kernel.commands) + 1)
      ensures gatewayRouteAdded ==> kernel.commands == old(kernel.commands) + 2
      ensures kernel.routes
              == if gatewayRouteAdded then Pinned(old(kernel.routes), settings.gateway) else old(kernel.routes)
      ensures err.None? ==> && Reached(old(kernel.routes), settings)
                            && kernel.routes == Pinned(old(kernel.routes), settings.gateway)
                            && gatewayRouteAdded == PinIsOurs(old(kernel.routes), settings)
      ensures err.Some? ==> err.value in {CommandFailed, Unreachable, GatewayLoop} && !gatewayRouteAdded
      ensures old(kernel.commands) <= kernel.commands
      ensures Foretold(err, ForeseenPin(settings, old(kernel.routes)),
                       kernel.Smooth(old(kernel.commands), kernel.commands))
    {
      if settings.gateway.None? {
        return None;
      }
      var now := kernel.RouteGet(settings.gateway.value);
      if now.None? {
        return Some(Unreachable);
      }
      if now.value.dev == settings.dev {
        return Some(GatewayLoop);
      }
      var o := kernel.RouteAdd(Some(settings.gateway.value), now.value);
      if o == Failed {
        return Some(CommandFailed);
      }
      if o == Exists {
        return None;
      }
      gatewayRouteAdded := true;
      err := None;
    }

    method AddRoutes() returns (err: Option<NetError>)
      requires conflicts == [] && installedRoutes == 0
      modifies this`installedRoutes, this`conflicts, kernel`routes, kernel`commands
      ensures Offered(old(kernel.routes), kernel.routes, settings)
      ensures err.None? ==> Added(old(kernel.routes), kernel.routes, settings, installedRoutes, conflicts)
      ensures err != Some(GatewayCaptured)
      ensures old(kernel.commands) <= kernel.commands
      ensures Foretold(err, ForeseenRoutes(settings, old(kernel.routes)),
                       kernel.Smooth(old(kernel.commands), kernel.commands))
    {
      if settings.routes != [] {
        err := AddNetworks();
      } else if !settings.fullTunnel {
        NothingOffered(kernel.routes, settings);
        OverlayGrows(kernel.routes, [], [], settings.dev);
        err := None;
      } else {
        err := AddHalves();
      }
    }

    method AddNetworks() returns (err: Option<NetError>)
      requires settings.routes != [] && conflicts == [] && installedRoutes == 0
      modifies this`installedRoutes, this`conflicts, kernel`routes, kernel`commands
      ensures Offered(old(kernel.routes), kernel.routes, settings)
      ensures err.None? ==>
                && None !in Wanted(settings)
                && kernel.routes == Overlay(old(kernel.routes), Wanted(settings), settings.dev)
                && conflicts == Conflicting(old(kernel.routes), Wanted(settings))
                && installedRoutes == |settings.routes| - |conflicts|
      ensures err.None? || err == Some(CommandFailed)
      ensures old(kernel.commands) <= kernel.commands
      ensures Foretold(err, if None in Wanted(settings) then Some(CommandFailed) else None,
                       kernel.Smooth(old(kernel.commands), kernel.commands))
    {
      hide Overlay, Conflicting, Resolve;
      ghost var wanted := Wanted(settings);
      ghost var table := kernel.routes;
      var installed := 0;
      OverlayGrows(table, [], [], settings.dev);
      ConflictsGrow(table, [], [], settings.dev);
      for i := 0 to |settings.routes|
        invariant installedRoutes == 0
        invariant None !in wanted[..i]
        invariant kernel.routes == Overlay(table, wanted[..i], settings.dev)
        invariant conflicts == Conflicting(table, wanted[..i])
        invariant installed + |conflicts| == i
        invariant kernel.commands == old(kernel.commands) + i
        invariant kernel.Smooth(old(kernel.commands), kernel.commands)
      {
        var destination := Destination(settings.routes[i]);
        assert wanted[i] == destination;
        assert wanted[..i + 1] == wanted[..i] + [destination];
        var o := kernel.RouteAdd(destination, Route(None, settings.dev));
        if o == Failed {
          assert kernel.routes == Overlay(table, wanted[..i], settings.dev);
          return Some(CommandFailed);
        }
        OverlayGrows(table, wanted[..i], destination.value, settings.dev);
        ConflictsGrow(table, wanted[..i], destination.value, settings.dev);
        if o == Done {
          installed := installed + 1;
          continue;
        }
        conflicts := conflicts + [destination.value];
      }
      assert wanted[..|settings.routes|] == wanted;
      installedRoutes := installed;
      err := None;
    }

    method AddHalves() returns (err: Option<NetError>)
      requires settings.routes == [] && settings.fullTunnel && conflicts == [] && installedRoutes == 0
      modifies kernel`routes, kernel`commands
      ensures Offered(old(kernel.routes), kernel.routes, settings)
      ensures err.None? ==>
                && kernel.routes == Overlay(old(kernel.routes), HALVES, settings.dev)
                && (forall h :: h in HALVES ==> h.value !in old(kernel.routes))
      ensures err != Some(GatewayCaptured)
      ensures old(kernel.commands) <= kernel.commands
      ensures Foretold(err, if [false] in old(kernel.routes) then Some(HalfTaken([false]))
                            else if [true] in old(kernel.routes) then Some(HalfTaken([true])) else None,
                       kernel.Smooth(old(kernel.commands), kernel.commands))
    {
      hide Overlay, Resolve;
      ghost var table := kernel.routes;
      OverlayGrows(table, [], [], settings.dev);
      for i := 0 to 2
        invariant kernel.routes == Overlay(table, HALVES[..i], settings.dev)
        invariant forall k :: 0 <= k < i ==> HALVES[k].value !in table
        invariant kernel.commands == old(kernel.commands) + i
        invariant kernel.Smooth(old(kernel.commands), kernel.commands)
      {
        assert HALVES[..i + 1] == HALVES[..i] + [HALVES[i]];
        HalvesAreDistinct(table, i, settings.dev);
        OverlayGrows(table, HALVES[..i], HALVES[i].value, settings.dev);
        assert Wanted(settings)[..i] == HALVES[..i] && (i == 0 || i == 1);
        assert HALVES[0].value == [false] && HALVES[1].value == [true];
        var o := kernel.RouteAdd(HALVES[i], Route(None, settings.dev));
        if o == Failed {
          return Some(CommandFailed);
        }
        if o == Exists {
          return Some(HalfTaken(HALVES[i].value));
        }
      }
      assert HALVES[..2] == HALVES && Wanted(settings)[..2] == HALVES;
      err := None;
    }

    method VerifyGatewayIsNotTunnelled() returns (err: Option<NetError>)
      modifies kernel`commands
      ensures old(kernel.commands) <= kernel.commands
      ensures Reached(kernel.routes, settings) ==> err != Some(GatewayCaptured)
      ensures err.None? <==> Reached(kernel.routes, settings)
                             && kernel.Smooth(old(kernel.commands), kernel.commands)
    {
      if settings.gateway.None? {
        return None;
      }
      var now := kernel.RouteGet(settings.gateway.value);
      if now.None? {
        return Some(Unreachable);
      }
      if now.value.dev == settings.dev {
        return Some(GatewayCaptured);
      }
      err := None;
    }

    method ApplyDNS() returns (err: Option<NetError>)
      modifies this`dnsApplied, kernel`dns, kernel`commands
      ensures err.None? ==> settings.dns == [] || (kernel.resolvectl && dnsApplied)
      ensures err.None? && settings.dns != [] ==>
                && settings.dev in kernel.dns && kernel.dns[settings.dev].servers == settings.dns
                && kernel.dns[settings.dev].domains
                   == (if Claims(settings) != [] then Claims(settings) else old(kernel.DomainsOf(settings.dev)))
      ensures err.Some? ==> dnsApplied == old(dnsApplied) && err.value in {CommandFailed, NoResolvectl}
      ensures old(kernel.commands) <= kernel.commands
      ensures Foretold(err, ForeseenDNS(settings, kernel.resolvectl),
                       kernel.Smooth(old(kernel.commands), kernel.commands))
    {
      if settings.dns == [] {
        return None;
      }
      if !kernel.resolvectl {
        return Some(NoResolvectl);
      }
      var ok := kernel.SetServers(settings.dev, settings.dns);
      if !ok {
        return Some(CommandFailed);
      }
      var domains := if settings.fullTunnel then ["."] else settings.domains;
      if domains == [] {
        dnsApplied := true;
        return None;
      }
      var claims := [];
      for i := 0 to |domains|
        invariant claims == RoutingDomains(domains)[..i]
      {
        claims := claims + [RoutingDomain(domains[i])];
      }
      ok := kernel.SetDomains(settings.dev, claims);
      if !ok {
        return Some(CommandFailed);
      }
      dnsApplied := true;
      err := None;
    }

    /** Takes back the pin if it is ours and every route over the device, each unless its command fails. */
    method Revert() returns (ok: bool)
      modifies this`applied, this`dnsApplied, kernel`routes, kernel`links, kernel`dns, kernel`commands
      ensures !applied
      ensures !old(applied) ==> ok && dnsApplied == old(dnsApplied) && kernel.routes == old(kernel.routes)
                                && kernel.links == old(kernel.links) && kernel.dns == old(kernel.dns)
                                && kernel.commands == old(kernel.commands)
      ensures old(kernel.commands) <= kernel.commands
      ensures ok <==> kernel.Smooth(old(kernel.commands), kernel.commands)
                      && (old(applied) ==> PinIsThere(old(kernel.routes), settings, gatewayRouteAdded))
      ensures old(applied) ==> !dnsApplied
      ensures old(applied) ==>
                kernel.routes
                == Reverted(old(kernel.routes), settings, gatewayRouteAdded, kernel.refuses, old(kernel.commands))
      ensures old(applied) && ok ==>
                && kernel.routes == TakenBack(old(kernel.routes), settings, gatewayRouteAdded)
                && settings.dev !in kernel.links && settings.dev !in kernel.dns
      ensures old(applied) ==>
                || WithoutDevice(kernel.routes, settings.dev)
                   == TakenBack(old(kernel.routes), settings, gatewayRouteAdded)
                || WithoutDevice(kernel.routes, settings.dev) == TakenBack(old(kernel.routes), settings, false)
    {
      if !applied {
        return true;
      }
      ok := true;
      if gatewayRouteAdded && settings.gateway.Some? {
        ok := kernel.RouteDel(settings.gateway.value);
      }
      var down := kernel.LinkDown(settings.dev);
      ok := ok && down;
      applied := false;
      dnsApplied := false;
    }
  }

  function Without(table: Table, p: Prefix): Table {
    table - {p}
  }

  /** What Revert leaves of a table, given which of its commands, the first being the given one, fail. */
  function Reverted(table: Table, s: Settings, pinned: bool, refuses: nat -> bool, command: nat): Table {
    var unpins := pinned && s.gateway.Some?;
    var unpinned := if unpins && !refuses(command) then Without(table, s.gateway.value) else table;
    if refuses(if unpins then command + 1 else command) then unpinned else WithoutDevice(unpinned, s.dev)
  }

  /** The route that Revert is to delete exists. */
  predicate PinIsThere(table: Table, s: Settings, pinned: bool) {
    pinned && s.gateway.Some? ==> s.gateway.value in table
  }

  /** What Revert leaves of a table. */
  function TakenBack(table: Table, s: Settings, pinned: bool): Table {
    WithoutDevice(if pinned && s.gateway.Some? then Without(table, s.gateway.value) else table, s.dev)
  }

  // --- Lemmas the methods use ---

  lemma NothingOffered(table: Table, s: Settings)
    ensures Offered(table, table, s)
  {
    assert Wanted(s)[..0] == [];
    OverlayGrows(table, [], [], s.dev);
  }

  lemma ConflictsGrow(table: Table, wanted: seq<Option<Prefix>>, p: Prefix, dev: string)
    ensures Conflicting(table, []) == []
    ensures Conflicting(table, wanted + [Some(p)])
            == Conflicting(table, wanted) + if p in Overlay(table, wanted, dev) then [p] else []
  {
    assert (wanted + [Some(p)])[..|wanted|] == wanted;
  }

  lemma HalvesAreDistinct(table: Table, i: nat, dev: string)
    requires i < 2 && forall k :: 0 <= k < i ==> HALVES[k].value !in table
    ensures HALVES[i].value in Overlay(table, HALVES[..i], dev) <==> HALVES[i].value in table
  {
    assert [false][0] != [true][0];
  }

  /** A host route is the longest there can be. */
  lemma HostRouteWins(table: Table, a: Addr)
    requires a in table
    ensures Resolve(table, a) == Some(table[a])
  {
    assert a[..32] == a;
  }

  /** Pinning gives the gateway a host route to where it was reached already. */
  lemma PinReaches(before: Table, s: Settings)
    requires s.gateway.Some? && Reached(before, s)
    ensures s.gateway.value in Pinned(before, s.gateway)
    ensures Pinned(before, s.gateway)[s.gateway.value] == Resolve(before, s.gateway.value).value
  {
    if s.gateway.value in before {
      HostRouteWins(before, s.gateway.value);
    }
  }

  lemma GatewayStaysPut(before: Table, s: Settings)
    requires s.gateway.Some? && Reached(before, s)
    ensures forall wanted :: Resolve(Overlay(Pinned(before, s.gateway), wanted, s.dev), s.gateway.value)
                             == Resolve(before, s.gateway.value)
  {
    forall wanted
      ensures Resolve(Overlay(Pinned(before, s.gateway), wanted, s.dev), s.gateway.value)
              == Resolve(before, s.gateway.value)
    {
      PinReaches(before, s);
      HostRouteWins(Overlay(Pinned(before, s.gateway), wanted, s.dev), s.gateway.value);
    }
  }

  lemma GatewayStaysReached(before: Table, after: Table, s: Settings, installed: nat, conflicts: seq<Prefix>)
    requires Reached(before, s) && Added(Pinned(before, s.gateway), after, s, installed, conflicts)
    ensures Reached(after, s)
  {
    if s.gateway.Some? {
      GatewayStaysPut(before, s);
    }
  }

  // --- What the tunnel carries ---

  /** Pinning changes how no address but the gateway is reached, and how the gateway is reached not at
      all. */
  lemma PinningIsInvisible(before: Table, s: Settings, a: Addr)
    requires Reached(before, s)
    ensures Resolve(Pinned(before, s.gateway), a) == Resolve(before, a)
    ensures s.gateway != Some(a) ==> Longest(Pinned(before, s.gateway).Keys, a) == Longest(before.Keys, a)
  {
    var after := Pinned(before, s.gateway);
    if s.gateway == Some(a) {
      PinReaches(before, s);
      HostRouteWins(after, a);
    } else if after != before {
      var g: Prefix := s.gateway.value;
      assert after.Keys == before.Keys + {g};
      LongestOfUnion(before.Keys, {g}, a, 32);
      NoneWithin(g, a, 32);
    }
  }

  lemma {:induction false} NoneWithin(g: Prefix, a: Addr, n: nat)
    requires n <= 32 && |g| == 32 && g != a
    ensures LongestWithin({g}, a, n) == -1
  {
    if n == 32 {
      assert a[..n] == a;
    }
    if n > 0 {
      NoneWithin(g, a, n - 1);
    }
  }

  /** The routing function after a successful Apply, for every address: the gateway is reached exactly as
      before; any other address goes through the tunnel when what is wanted matches it more closely than
      any route that was there, and is reached exactly as before otherwise. */
  lemma ApplyRefinesRouting(s: Settings, before: Table, after: Table, l: Ledger, a: Addr)
    requires Succeeded(s, before, after, l)
    ensures Resolve(after, a)
            == if s.gateway != Some(a) && Longest(Keys(Wanted(s)), a) > Longest(before.Keys, a)
               then Some(Route(None, s.dev)) else Resolve(before, a)
  {
    hide Succeeded;
    SuccessIsOverlay(s, before, after, l);
    if s.gateway == Some(a) {
      GatewayStaysPut(before, s);
    } else {
      OverlayResolves(Pinned(before, s.gateway), Wanted(s), s.dev, a);
      PinningIsInvisible(before, s, a);
    }
  }

  /** In full tunnel exactly the addresses that only the default route reached, or none did, move to the
      tunnel; the gateway never does. */
  lemma FullTunnelTakesTheDefault(s: Settings, before: Table, after: Table, l: Ledger, a: Addr)
    requires Succeeded(s, before, after, l) && s.routes == [] && s.fullTunnel
    ensures Resolve(after, a)
            == if s.gateway != Some(a) && (forall p :: p in before && p <= a ==> p == [])
               then Some(Route(None, s.dev)) else Resolve(before, a)
  {
    ApplyRefinesRouting(s, before, after, l, a);
    HalvesCoverEverything(a);
    var n := Longest(before.Keys, a);
    if s.gateway != Some(a) {
      if n >= 1 {
        assert a[..n] in before && a[..n] <= a && |a[..n]| == n;
        assert a[..n] != [];
      } else {
        forall p | p in before && p <= a ensures p == [] {
          NothingLonger(before.Keys, a, 32, p);
        }
      }
    }
  }

  /** An empty list without full tunnel installs nothing: no address moves. */
  lemma NothingWantedNothingMoves(s: Settings, before: Table, after: Table, l: Ledger, a: Addr)
    requires Succeeded(s, before, after, l) && s.routes == [] && !s.fullTunnel
    ensures Resolve(after, a) == Resolve(before, a)
  {
    ApplyRefinesRouting(s, before, after, l, a);
    assert Keys(Wanted(s)) == {};
  }

  /** The gateway never resolves to the tunnel after success, whatever was wanted. */
  lemma GatewayIsNeverTunnelled(s: Settings, before: Table, after: Table, l: Ledger)
    requires Succeeded(s, before, after, l) && s.gateway.Some?
    ensures Resolve(after, s.gateway.value) == Resolve(before, s.gateway.value)
    ensures Resolve(after, s.gateway.value).Some? && Resolve(after, s.gateway.value).value.dev != s.dev
  {
    GatewayStaysPut(before, s);
  }

  /** Split routes: every published network is counted once, as installed or as a conflict, and as many
      entries were added to the table as are counted installed. */
  lemma EveryRouteIsCounted(s: Settings, before: Table, after: Table, l: Ledger)
    requires Succeeded(s, before, after, l) && s.routes != []
    ensures l.installed + |l.conflicts| == |s.routes|
    ensures |after| == |before| + l.installed + if l.pinned then 1 else 0
  {
    InstalledAndConflicting(Pinned(before, s.gateway), Wanted(s), s.dev);
    if s.gateway.Some? {
      PinReaches(before, s);
    }
  }

  // --- Two connections at once ---

  /** Destinations that the second connection is the first to install. */
  function NewKeys(table: Table, wanted: seq<Option<Prefix>>): set<Prefix> {
    Keys(wanted) - table.Keys
  }

  /** A second connection that is applied, over an interface of its own, before the first is taken back: it
      never has a pin of its own, and once the first is gone the gateway has only the host route it may have had
      before either. From then on the tunnel
      carries exactly what matches, more closely than any route there was at first, some destination that the
      second wanted and the first did not: what both wanted is carried by neither. */
  lemma OverlapLosesThePin(
      s1: Settings, s2: Settings, before: Table, t1: Table, l1: Ledger, t2: Table, l2: Ledger, a: Addr)
    requires Succeeded(s1, before, t1, l1) && Succeeded(s2, t1, t2, l2)
    requires s1.gateway == s2.gateway && s1.gateway.Some? && s1.dev != s2.dev
    requires NoRouteOver(before, s1.dev)
    ensures var after := TakenBack(t2, s1, l1.pinned);
            && !l2.pinned
            && (s1.gateway.value in after <==> s1.gateway.value in before)
            && Resolve(after, a)
               == if Longest(NewKeys(t1, Wanted(s2)), a) > Longest(before.Keys, a) then Some(Route(None, s2.dev))
                  else Resolve(before, a)
  {
    var g: Prefix := s1.gateway.value;
    var after := TakenBack(t2, s1, l1.pinned);
    var news := NewKeys(t1, Wanted(s2));
    OverlapLeaves(s1, s2, before, t1, l1, t2, l2);
    hide Succeeded, Overlay, Pinned, TakenBack;
    assert after.Keys == before.Keys + news;
    LongestOfUnion(before.Keys, news, a, 32);
    if Longest(news, a) <= Longest(before.Keys, a) && Longest(before.Keys, a) >= 0 {
      assert a[..Longest(before.Keys, a)] in before;
    }
    if Longest(news, a) > Longest(before.Keys, a) {
      assert a[..Longest(news, a)] in news;
    }
  }

  lemma OverlapLeaves(s1: Settings, s2: Settings, before: Table, t1: Table, l1: Ledger, t2: Table, l2: Ledger)
    requires Succeeded(s1, before, t1, l1) && Succeeded(s2, t1, t2, l2)
    requires s1.gateway == s2.gateway && s1.gateway.Some? && s1.dev != s2.dev
    requires NoRouteOver(before, s1.dev)
    ensures !l2.pinned && s1.gateway.value in t1
    ensures var after := TakenBack(t2, s1, l1.pinned);
            var news := NewKeys(t1, Wanted(s2));
            && after.Keys == before.Keys + news
            && (forall p :: p in before ==> after[p] == before[p])
            && (forall p :: p in news ==> after[p] == Route(None, s2.dev) && p !in before)
  {
    hide Resolve, Conflicting, Wanted, Added, PinIsOurs;
    PinReachesOnce(before, t1, s1, l1);
    SuccessIsOverlay(s2, t1, t2, l2);
    hide Succeeded;
    assert Pinned(t1, s2.gateway) == t1;
  }

  lemma SuccessIsOverlay(s: Settings, before: Table, after: Table, l: Ledger)
    requires Succeeded(s, before, after, l)
    ensures after == Overlay(Pinned(before, s.gateway), Wanted(s), s.dev) && Reached(before, s)
    ensures s.gateway.Some? && s.gateway.value in before ==> !l.pinned
  {
  }

  lemma PinReachesOnce(before: Table, t1: Table, s: Settings, l: Ledger)
    requires Succeeded(s, before, t1, l) && s.gateway.Some? && NoRouteOver(before, s.dev)
    ensures s.gateway.value in t1 && t1[s.gateway.value].dev != s.dev
    ensures l.pinned <==> s.gateway.value !in before
    ensures forall p :: p in before ==> p in t1 && t1[p] == before[p]
    ensures forall p :: p in t1 && p !in before ==> p == s.gateway.value || t1[p].dev == s.dev
  {
    PinReaches(before, s);
  }

  /** And so the second tunnel is routed through itself exactly when one of its own destinations matches
      the gateway more closely than any route there was before either connection. */
  lemma OverlapCapturesTheGateway(
      s1: Settings, s2: Settings, before: Table, t1: Table, l1: Ledger, t2: Table, l2: Ledger)
    requires Succeeded(s1, before, t1, l1) && Succeeded(s2, t1, t2, l2)
    requires s1.gateway == s2.gateway && s1.gateway.Some? && s1.dev != s2.dev
    requires NoRouteOver(before, s1.dev) && NoRouteOver(before, s2.dev)
    ensures var g := s1.gateway.value;
            Resolve(TakenBack(t2, s1, l1.pinned), g) == Some(Route(None, s2.dev))
            <==> Longest(NewKeys(t1, Wanted(s2)), g) > Longest(before.Keys, g)
  {
    OverlapLosesThePin(s1, s2, before, t1, l1, t2, l2, s1.gateway.value);
  }

  // --- Putting it back ---

  /** After any Apply that got as far as adding the address, a Revert whose commands succeed restores the
      very table there was, on a machine with no route over the device to begin with. */
  lemma RevertRestores(s: Settings, before: Table, after: Table, l: Ledger)
    requires Left(s, before, after, l) && l.applied && NoRouteOver(before, s.dev)
    ensures TakenBack(after, s, l.pinned) == before
  {
    var n: nat :| n <= |Wanted(s)| && after == Overlay(Pinned(before, s.gateway), Wanted(s)[..n], s.dev);
    if l.pinned {
      UnpinnedOverlay(before, s, Wanted(s)[..n]);
    } else {
      OverlayIsUndone(before, Wanted(s)[..n], s.dev);
    }
  }

  lemma UnpinnedOverlay(before: Table, s: Settings, wanted: seq<Option<Prefix>>)
    requires PinIsOurs(before, s) && NoRouteOver(before, s.dev)
    ensures TakenBack(Overlay(Pinned(before, s.gateway), wanted, s.dev), s, true) == before
  {
    hide Resolve;
    var g: Prefix := s.gateway.value;
    var pinned := Pinned(before, s.gateway);
    var after := Overlay(pinned, wanted, s.dev);
    forall p | p in after && p != g && after[p].dev != s.dev
      ensures p in before && after[p] == before[p]
    {
    }
  }

  lemma PinIsOffTheDevice(before: Table, s: Settings)
    requires NoRouteOver(before, s.dev)
    ensures NoRouteOver(Pinned(before, s.gateway), s.dev)
  {
  }

  /** Should the interface vanish without a Revert, at any point of Apply or after it, every address is
      reached exactly as before: a pin left behind repeats what was there. */
  lemma VanishedInterfaceIsInvisible(s: Settings, before: Table, after: Table, l: Ledger, a: Addr)
    requires Left(s, before, after, l) && NoRouteOver(before, s.dev)
    ensures Resolve(WithoutDevice(after, s.dev), a) == Resolve(before, a)
  {
    hide Resolve;
    var pinned := Pinned(before, s.gateway);
    PinIsOffTheDevice(before, s);
    assert (after == before || (Reached(before, s) && WithoutDevice(after, s.dev) == pinned)) by {
      if l.applied {
        var n: nat :| n <= |Wanted(s)| && after == Overlay(pinned, Wanted(s)[..n], s.dev);
        OverlayIsUndone(pinned, Wanted(s)[..n], s.dev);
      } else if l.pinned {
        OverlayGrows(pinned, [], [], s.dev);
        OverlayIsUndone(pinned, [], s.dev);
      }
    }
    if after == before {
      OverlayGrows(before, [], [], s.dev);
      OverlayIsUndone(before, [], s.dev);
    } else {
      PinningIsInvisible(before, s, a);
    }
  }

  /** Apply, up to the count `mid` of commands, and then Revert. Revert reports success exactly when none
      of its own commands failed, and then the table is what it was, unless the pin had been added and the
      address had then been refused: exactly then, and for good, the pin stays. When Revert fails the table
      is what it was only if its failing command had nothing to take back, and a second Revert, which is
      made here too, does not change that. */
  method ApplyThenRevert(kernel: Kernel, s: Settings)
    returns (failed: bool, ok: bool, leaked: bool, ghost mid: nat, ghost applied: Table)
    modifies kernel
    ensures old(kernel.commands) <= mid <= kernel.commands
    ensures !failed <==> kernel.Smooth(old(kernel.commands), mid)
                         && Foreseen(s, old(kernel.routes), old(kernel.addresses), kernel.resolvectl).None?
    ensures ok <==> kernel.Smooth(mid, kernel.commands)
    ensures leaked <==> PinLeaks(s, old(kernel.routes), old(kernel.addresses), kernel.refuses, old(kernel.commands))
    ensures leaked ==> failed && ok && kernel.routes == Pinned(old(kernel.routes), s.gateway)
    ensures ok && NoRouteOver(old(kernel.routes), s.dev) ==> (kernel.routes == old(kernel.routes) <==> !leaked)
    ensures !ok ==> Offered(Pinned(old(kernel.routes), s.gateway), applied, s)
    ensures !ok ==> kernel.routes == Reverted(applied, s, PinIsOurs(old(kernel.routes), s), kernel.refuses, mid)
    ensures !ok && NoRouteOver(old(kernel.routes), s.dev) ==>
              (kernel.routes == old(kernel.routes)
               <==> RestoredAnyway(applied, s, PinIsOurs(old(kernel.routes), s), kernel.refuses, mid))
  {
    hide Left, Succeeded, Overlay, Resolve, PinIsOurs, Pinned, PinLeaks, Foreseen, PinIsThere;
    hide Offered, Reverted, RestoredAnyway, TakenBack;
    ghost var before := kernel.routes;
    var c := new LinuxConfigurator(kernel, s);
    var err := c.Apply(s);
    mid, applied := kernel.commands, kernel.routes;
    failed := err.Some?;
    leaked := !c.applied && c.gatewayRouteAdded;
    LeakIsThePin(s, before, kernel.routes, c.View(), err.None?);
    if c.applied && NoRouteOver(before, s.dev) {
      RevertRestores(s, before, kernel.routes, c.View());
    }
    ok := c.Revert();
    ghost var after := kernel.routes;
    if !ok && NoRouteOver(before, s.dev) {
      FailedRevertRestores(s, before, applied, c.View().(applied := true), kernel.refuses, mid);
    }
    var again := c.Revert();
    assert again && kernel.routes == after;
  }

  /** The pin is not there or has been deleted, and no route over the device is left behind. */
  predicate RestoredAnyway(applied: Table, s: Settings, pinned: bool, refuses: nat -> bool, command: nat) {
    && (pinned ==> !refuses(command))
    && (refuses(if pinned then command + 1 else command) ==> NoRouteOver(applied, s.dev))
  }

  lemma FailedRevertRestores(
      s: Settings, before: Table, after: Table, l: Ledger, refuses: nat -> bool, command: nat)
    requires Left(s, before, after, l) && l.applied && NoRouteOver(before, s.dev)
    ensures Reverted(after, s, l.pinned, refuses, command) == before
            <==> RestoredAnyway(after, s, l.pinned, refuses, command)
  {
    hide Overlay, Resolve, Left, PinIsOurs;
    RevertRestores(s, before, after, l);
    if l.pinned {
      LeakIsThePin(s, before, after, l, false);
      DownOrNothing(Without(after, s.gateway.value), s.dev, before);
      assert NoRouteOver(Without(after, s.gateway.value), s.dev) <==> NoRouteOver(after, s.dev) by {
        assert forall p :: p in after && p != s.gateway.value ==> p in Without(after, s.gateway.value);
      }
    } else {
      DownOrNothing(after, s.dev, before);
    }
  }

  /** Where taking a device down gives a table without it, that table was there already exactly if nothing
      went over the device. */
  lemma DownOrNothing(table: Table, dev: string, before: Table)
    requires WithoutDevice(table, dev) == before
    ensures table == before <==> NoRouteOver(table, dev)
  {
    assert NoRouteOver(before, dev);
  }

  /** An Apply that stopped before the address was added has changed nothing but the pin: that pin is the
      one thing Revert will not take back. */
  lemma LeakIsThePin(s: Settings, before: Table, after: Table, l: Ledger, succeeded: bool)
    requires Left(s, before, after, l) && (succeeded ==> Succeeded(s, before, after, l))
    ensures !l.applied ==> after == (if l.pinned then Pinned(before, s.gateway) else before) && !succeeded
    ensures l.pinned ==> PinIsOurs(before, s) && Pinned(before, s.gateway) != before
    ensures l.pinned ==>
              && s.gateway.value in after && s.gateway.value !in before && after[s.gateway.value].dev != s.dev
    ensures PinIsThere(after, s, l.pinned)
    ensures l.applied ==> l.pinned == PinIsOurs(before, s) && Offered(Pinned(before, s.gateway), after, s)
  {
    if l.pinned {
      PinReaches(before, s);
    }
  }
}
