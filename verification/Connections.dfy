/** Bringing a connection up, and taking it down again on any failure: internal/service/vpn/connection.go.
    What the pumps do meanwhile is in Pumps. */
module Connections {
  import opened Bytes
  import opened Routes
  import opened NetConfig

  /** What the caller asked for: routes absent means the gateway's own list. */
  datatype Options = Options(routes: Option<seq<Network>>, fullTunnel: bool, domains: seq<string>, mtu: int)

  /** How each step that this model does not look into turns out. */
  datatype Fortune = Fortune(allocates: bool, dials: bool, negotiates: bool, creates: bool, names: bool, closes: bool)

  /** What the gateway published and what was negotiated with it. */
  datatype Offer = Offer(published: seq<Entry>, suffix: string, localIP: Addr, dns: seq<Addr>, gateway: Option<Addr>)

  predicate Up(f: Fortune) {
    f.allocates && f.dials && f.negotiates && f.creates && f.names
  }

  function RoutesFor(options: Options, offer: Offer): seq<Network> {
    if options.routes.None? then FirstOccurrences(offer.published) else options.routes.value
  }

  function DomainsFor(options: Options, offer: Offer): seq<string> {
    if options.domains != [] then options.domains else if offer.suffix != "" then [offer.suffix] else []
  }

  function SettingsFor(options: Options, offer: Offer, dev: string): Settings {
    var routes := RoutesFor(options, offer);
    Settings(dev, offer.localIP, if options.mtu <= 0 then 1400 else options.mtu, routes, offer.gateway,
             offer.dns, DomainsFor(options, offer), options.fullTunnel && routes == [])
  }

  class Link {
    const closeFails: bool
    var closes: nat

    method Close() returns (ok: bool)
      modifies this
      ensures closes == old(closes) + 1 && ok == !closeFails
    {
      closes := closes + 1;
      ok := !closeFails;
    }
  }

  /** A tun interface lasts as long as its file descriptor: closing it takes its addresses and routes,
      whatever it reports. */
  class Device {
    const name: string
    const kernel: Kernel
    const closeFails: bool
    var closes: nat

    constructor (name: string, kernel: Kernel, closeFails: bool)
      ensures this.name == name && this.kernel == kernel && this.closeFails == closeFails && closes == 0
    {
      this.name, this.kernel, this.closeFails, closes := name, kernel, closeFails, 0;
    }

    method Close() returns (ok: bool)
      modifies this, kernel`routes, kernel`addresses, kernel`links, kernel`dns
      ensures closes == old(closes) + 1 && ok == !closeFails
      ensures kernel.routes == WithoutDevice(old(kernel.routes), name)
      ensures kernel.links == old(kernel.links) - {name} && kernel.dns == old(kernel.dns) - {name}
    {
      closes := closes + 1;
      ok := !closeFails;
      kernel.routes := WithoutDevice(kernel.routes, name);
      kernel.addresses := set x | x in kernel.addresses && x.1 != name;
      kernel.links, kernel.dns := kernel.links - {name}, kernel.dns - {name};
    }
  }

  class Connection {
    const link: Link
    const config: LinuxConfigurator
    var device: Option<Device>
    var running: bool
    var cancelled: bool
    var closeCalled: bool
    var closeErr: bool
    var done: bool
    var failure: Option<string>

    constructor (link: Link, config: LinuxConfigurator)
      ensures this.link == link && this.config == config && device.None?
      ensures !running && !cancelled && !closeCalled && !closeErr && !done && failure.None?
    {
      this.link, this.config := link, config;
      device, running, cancelled, closeCalled, closeErr, done, failure := None, false, false, false, false, false, None;
    }

    /** The parts are one connection's: same kernel, same interface. */
    ghost predicate Coherent()
      reads this, config
    {
      device.Some? ==>
        device.value.kernel == config.kernel && (config.applied ==> config.settings.dev == device.value.name)
    }

    /** The parts can all be released: the pin Revert is to delete exists, and no close fails. */
    ghost predicate Releasable()
      reads this, config, config.kernel
    {
      && (config.applied ==> PinIsThere(config.kernel.routes, config.settings, config.gatewayRouteAdded))
      && (device.Some? ==> !device.value.closeFails)
      && !link.closeFails
    }

    method MarkDone(cause: Option<string>)
      modifies this`done, this`failure
      ensures done
      ensures failure == if old(done) || cause.None? then old(failure) else cause
    {
      if done {
        return;
      }
      if cause.Some? {
        failure := cause;
      }
      done := true;
    }

    /** In reverse order of creation, going on past whatever fails, and reporting whether anything did. */
    method Teardown() returns (ok: bool)
      requires Coherent()
      modifies this`done, this`failure, link, config, config.kernel, if device.Some? then {device.value} else {}
      ensures old(config.kernel.commands) <= config.kernel.commands
      ensures ok <==> old(Releasable()) && config.kernel.Smooth(old(config.kernel.commands), config.kernel.commands)
      ensures done && failure == old(failure)
      ensures link.closes == old(link.closes) + 1
      ensures device.Some? ==> device.value.closes == old(device.value.closes) + 1
      ensures device.None? && !old(config.applied) ==> config.kernel.routes == old(config.kernel.routes)
      ensures device.Some? && old(config.applied) ==>
                || config.kernel.routes
                   == TakenBack(old(config.kernel.routes), config.settings, config.gatewayRouteAdded)
                || config.kernel.routes == TakenBack(old(config.kernel.routes), config.settings, false)
      ensures ok && device.Some? && old(config.applied) ==>
                config.kernel.routes == TakenBack(old(config.kernel.routes), config.settings, config.gatewayRouteAdded)
      ensures device.Some? && !old(config.applied) ==>
                config.kernel.routes == WithoutDevice(old(config.kernel.routes), device.value.name)
      ensures config.View() == old(config.View()).(applied := false)
      ensures config.settings == old(config.settings)
    {
      ok := config.Revert();
      if device.Some? {
        var closed := device.value.Close();
        ok := ok && closed;
      }
      var closed := link.Close();
      ok := ok && closed;
      MarkDone(None);
    }

    /** Only the first call does anything; every call reports what the first one met. */
    method Close() returns (ok: bool)
      requires Coherent()
      modifies this, link, config, config.kernel, if device.Some? then {device.value} else {}
      ensures closeCalled && ok == !closeErr && device == old(device) && config.settings == old(config.settings)
      ensures old(config.kernel.commands) <= config.kernel.commands
      ensures old(closeCalled) ==>
                && link.closes == old(link.closes) && config.kernel.routes == old(config.kernel.routes)
                && config.kernel.commands == old(config.kernel.commands)
                && closeErr == old(closeErr) && cancelled == old(cancelled) && done == old(done)
      ensures !old(closeCalled) ==> cancelled && done && failure == old(failure) && link.closes == old(link.closes) + 1
      ensures !old(closeCalled) ==>
                (ok <==> && old(Releasable())
                         && config.kernel.Smooth(old(config.kernel.commands), config.kernel.commands))
      ensures !old(closeCalled) && device.Some? ==> device.value.closes == old(device.value.closes) + 1
      ensures !old(closeCalled) && device.Some? && old(config.applied) ==>
                || config.kernel.routes
                   == TakenBack(old(config.kernel.routes), config.settings, old(config.gatewayRouteAdded))
                || (!ok && config.kernel.routes == TakenBack(old(config.kernel.routes), config.settings, false))
    {
      if !closeCalled {
        closeCalled := true;
        cancelled := true;
        var torn := Teardown();
        closeErr := !torn;
      }
      ok := !closeErr;
    }
  }

  /** Nobody can tell from where packets go that a connection was tried: at most the gateway has been
      given a route of its own to where it was reached already. */
  ghost predicate Untouched(before: Table, after: Table, gateway: Option<Addr>) {
    && (after == before || after == Pinned(before, gateway))
    && (forall a :: Resolve(after, a) == Resolve(before, a))
  }

  /** Whatever Apply left, and whichever of Revert's commands failed, once the interface is gone. */
  lemma FailureIsUntouched(s: Settings, before: Table, after: Table, l: Ledger, final: Table)
    requires Left(s, before, after, l) && NoRouteOver(before, s.dev)
    requires if l.applied then final == TakenBack(after, s, l.pinned) || final == TakenBack(after, s, false)
             else final == WithoutDevice(after, s.dev)
    ensures Untouched(before, final, s.gateway)
    ensures l.applied && final == TakenBack(after, s, l.pinned) ==> final == before
    ensures !l.pinned ==> final == before
  {
    hide Resolve, Overlay;
    if l.applied {
      RevertRestores(s, before, after, l);
    }
    if final != before {
      VanishedIsPinned(s, before, after, l);
      forall a ensures Resolve(final, a) == Resolve(before, a) {
        VanishedInterfaceIsInvisible(s, before, after, l, a);
      }
    }
  }

  lemma VanishedIsPinned(s: Settings, before: Table, after: Table, l: Ledger)
    requires Left(s, before, after, l) && NoRouteOver(before, s.dev)
    ensures WithoutDevice(after, s.dev) == (if l.pinned || l.applied then Pinned(before, s.gateway) else before)
    ensures l.applied && !l.pinned ==> Pinned(before, s.gateway) == before
  {
    hide Resolve;
    var pinned := Pinned(before, s.gateway);
    PinIsOffTheDevice(before, s);
    OverlayGrows(before, [], [], s.dev);
    OverlayIsUndone(before, [], s.dev);
    OverlayGrows(pinned, [], [], s.dev);
    OverlayIsUndone(pinned, [], s.dev);
    if l.applied {
      var n: nat :| n <= |Wanted(s)| && after == Overlay(pinned, Wanted(s)[..n], s.dev);
      OverlayIsUndone(pinned, Wanted(s)[..n], s.dev);
    }
  }

  /** Brings the tunnel up on a machine with no route over the new interface. Either everything is in
      place, or nothing is: the link and the interface have been closed once each if they were there, and
      every address is reached as it was. */
  method Connect(options: Options, offer: Offer, fortune: Fortune, name: string, link: Link, config: LinuxConfigurator)
    returns (c: Connection?, device: Device?)
    requires config.View() == Ledger(false, false, 0, []) && link.closes == 0
    requires NoRouteOver(config.kernel.routes, name)
    modifies link, config, config.kernel
    ensures old(config.kernel.commands) <= config.kernel.commands
    ensures c != null <==>
              && Up(fortune)
              && Foreseen(SettingsFor(options, offer, name), old(config.kernel.routes), old(config.kernel.addresses),
                          config.kernel.resolvectl).None?
              && config.kernel.Smooth(old(config.kernel.commands), config.kernel.commands)
    ensures c != null ==>
              && fresh(c) && c.running && !c.done && c.failure.None? && !c.closeCalled
              && c.link == link && c.config == config && c.Coherent() && c.device.Some? && config.applied
              && config.settings == SettingsFor(options, offer, name)
              && Succeeded(config.settings, old(config.kernel.routes), config.kernel.routes, config.View())
    ensures c != null ==>
              && (offer.localIP, name) in config.kernel.addresses && name in config.kernel.links
              && config.kernel.links[name] == if options.mtu <= 0 then 1400 else options.mtu
    ensures c != null && offer.dns != [] ==>
              && name in config.kernel.dns && config.kernel.dns[name].servers == offer.dns
              && (Claims(config.settings) != [] ==> config.kernel.dns[name].domains == Claims(config.settings))
    ensures device != null <==> fortune.allocates && fortune.dials && fortune.negotiates && fortune.creates
    ensures device != null ==> fresh(device) && device.closes == if c == null then 1 else 0
    ensures device != null ==> device.closeFails == !fortune.closes
    ensures c == null ==> link.closes == if fortune.allocates && fortune.dials then 1 else 0
    ensures c != null ==> link.closes == 0 && device != null && c.device == Some(device)
    ensures c == null ==> Untouched(old(config.kernel.routes), config.kernel.routes, offer.gateway)
    ensures c == null && !config.gatewayRouteAdded ==> config.kernel.routes == old(config.kernel.routes)
  {
    ghost var plan := SettingsFor(options, offer, name);
    assert plan.dev == name && plan.gateway == offer.gateway && plan.dns == offer.dns && plan.localIP == offer.localIP;
    assert plan.mtu == if options.mtu <= 0 then 1400 else options.mtu;
    hide Succeeded, Left, Resolve, Overlay, Pinned, SettingsFor, Foreseen, Claims;
    c, device := null, null;
    if !fortune.allocates || !fortune.dials {
      return;
    }
    var connection := new Connection(link, config);
    if !fortune.negotiates || !fortune.creates {
      var _ := connection.Teardown();
      return;
    }
    device := new Device(name, config.kernel, !fortune.closes);
    connection.device := Some(device);
    ghost var before := config.kernel.routes;
    if !fortune.names {
      assert WithoutDevice(before, name) == before;
      var _ := connection.Teardown();
      return;
    }
    var s := SettingsFor(options, offer, name);
    var err := config.Apply(s);
    if err.Some? {
      ghost var after, l := config.kernel.routes, config.View();
      var _ := connection.Teardown();
      FailureIsUntouched(s, before, after, l, config.kernel.routes);
      return;
    }
    SuccessIsLeft(s, before, config.kernel.routes, config.View());
    connection.running := true;
    c := connection;
  }

  /** Connect, up to the count `mid` of commands, and later Close: when each succeeds, and that the machine
      routes every address as before whatever happened, over the very same table if Close met no failure. */
  method ConnectThenClose(options: Options, offer: Offer, fortune: Fortune, name: string, link: Link,
                          config: LinuxConfigurator)
    returns (connected: bool, ok: bool, ghost mid: nat)
    requires config.View() == Ledger(false, false, 0, []) && link.closes == 0
    requires NoRouteOver(config.kernel.routes, name)
    modifies link, config, config.kernel
    ensures old(config.kernel.commands) <= mid <= config.kernel.commands
    ensures connected <==>
              && Up(fortune)
              && Foreseen(SettingsFor(options, offer, name), old(config.kernel.routes), old(config.kernel.addresses),
                          config.kernel.resolvectl).None?
              && config.kernel.Smooth(old(config.kernel.commands), mid)
    ensures ok <==> && connected && fortune.closes && !link.closeFails
                    && config.kernel.Smooth(mid, config.kernel.commands)
    ensures link.closes == if fortune.allocates && fortune.dials then 1 else 0
    ensures Untouched(old(config.kernel.routes), config.kernel.routes, offer.gateway)
    ensures ok ==> config.kernel.routes == old(config.kernel.routes)
  {
    ghost var plan := SettingsFor(options, offer, name);
    assert plan.dev == name && plan.gateway == offer.gateway;
    hide Succeeded, Left, Resolve, Overlay, Pinned, SettingsFor, Untouched, Foreseen, PinIsThere, TakenBack;
    ghost var before := config.kernel.routes;
    var c, device := Connect(options, offer, fortune, name, link, config);
    mid := config.kernel.commands;
    connected := c != null;
    ok := false;
    if c != null {
      ghost var after, l := config.kernel.routes, config.View();
      SuccessIsLeft(config.settings, before, after, l);
      LeakIsThePin(config.settings, before, after, l, true);
      RevertRestores(config.settings, before, after, l);
      ok := c.Close();
      FailureIsUntouched(config.settings, before, after, l, config.kernel.routes);
    }
  }

  lemma SuccessIsLeft(s: Settings, before: Table, after: Table, l: Ledger)
    requires Succeeded(s, before, after, l)
    ensures Left(s, before, after, l) && l.applied
  {
    hide Resolve, Overlay;
    assert Wanted(s)[..|Wanted(s)|] == Wanted(s);
  }

  // --- From what the gateway publishes to where packets go ---

  /** An entry names the address: both its texts can be read, its mask is a run of ones of this length, and so
      far the two agree. */
  predicate Names(e: Entry, a: Addr, length: nat) {
    && e.ip.Some? && length <= 32 && e.mask == Some(Ones(length))
    && forall i :: 0 <= i < length ==> a[i] == e.ip.value[i]
  }

  /** Some entry names the address, and says more about it than the machine's own table. */
  ghost predicate CarriedBy(entries: seq<Entry>, before: Table, a: Addr) {
    exists i, length: nat :: 0 <= i < |entries| && Names(entries[i], a, length) && length > Longest(before.Keys, a)
  }

  predicate Readable(e: Entry) {
    e.ip.Some? && e.mask.Some?
  }

  function AsEntries(networks: seq<Network>): (entries: seq<Entry>)
    ensures |entries| == |networks|
  {
    seq(|networks|, i requires 0 <= i < |networks| => Entry(Some(networks[i].address), Some(networks[i].mask)))
  }

  /** The caller's own list, or else the gateway's, as published. */
  function ListFor(options: Options, offer: Offer): seq<Entry> {
    if options.routes.Some? then AsEntries(options.routes.value) else offer.published
  }

  lemma LongestIsTheNarrowest(networks: seq<Network>, before: Table, a: Addr)
    ensures Longest(Keys(Destinations(networks)), a) > Longest(before.Keys, a)
            <==> CarriedBy(AsEntries(networks), before, a)
  {
    hide LongestWithin, MaskLength, Destination, Ones;
    var entries, wanted := AsEntries(networks), Destinations(networks);
    assert forall i :: 0 <= i < |networks| ==> wanted[i] == Destination(networks[i]);
    var k := Longest(Keys(wanted), a);
    if k > Longest(before.Keys, a) {
      var i :| 0 <= i < |networks| && wanted[i] == Some(a[..k]);
      DestinationMatches(networks[i], a);
      RunOfOnes(networks[i].address, a, k);
      assert Names(entries[i], a, k);
    }
    if CarriedBy(entries, before, a) {
      var i, length: nat :| 0 <= i < |entries| && Names(entries[i], a, length) && length > Longest(before.Keys, a);
      DestinationMatches(networks[i], a);
      RunOfOnes(networks[i].address, a, length);
      OnesAreDistinct(length, |wanted[i].value|);
      assert Some(wanted[i].value) in wanted;
      NothingLonger(Keys(wanted), a, 32, wanted[i].value);
    }
  }

  lemma RunOfOnes(address: Addr, a: Addr, n: nat)
    requires n <= 32
    ensures Inside(a, address, Ones(n)) <==> forall i :: 0 <= i < n ==> a[i] == address[i]
  {
  }

  /** Skipping what cannot be read, collapsing repeats and masking leave the same addresses named. */
  lemma CollectingKeepsNames(entries: seq<Entry>, before: Table, a: Addr)
    ensures CarriedBy(AsEntries(FirstOccurrences(entries)), before, a) <==> CarriedBy(entries, before, a)
    ensures FirstOccurrences(entries) != [] <==> exists i :: 0 <= i < |entries| && Readable(entries[i])
  {
    hide LongestWithin, Ones, And;
    var networks := FirstOccurrences(entries);
    CollectedAreDistinct(entries);
    if CarriedBy(AsEntries(networks), before, a) {
      var j, length: nat :| 0 <= j < |networks| && Names(AsEntries(networks)[j], a, length)
                            && length > Longest(before.Keys, a);
      assert networks[j] in networks;
      var i :| 0 <= i < |entries| && ParseNetwork(entries[i].ip, entries[i].mask) == Some(networks[j]);
      SameNames(entries[i], networks[j], a, length);
    }
    if CarriedBy(entries, before, a) {
      var i, length: nat :| 0 <= i < |entries| && Names(entries[i], a, length) && length > Longest(before.Keys, a);
      var n := ParseNetwork(entries[i].ip, entries[i].mask).value;
      assert n in networks;
      var j :| 0 <= j < |networks| && networks[j] == n;
      SameNames(entries[i], n, a, length);
      assert Names(AsEntries(networks)[j], a, length);
    }
    forall i | 0 <= i < |entries| && Readable(entries[i]) ensures networks != [] {
      assert ParseNetwork(entries[i].ip, entries[i].mask).value in networks;
    }
    if networks != [] {
      assert networks[0] in networks;
    }
  }

  lemma SameNames(e: Entry, n: Network, a: Addr, length: nat)
    requires ParseNetwork(e.ip, e.mask) == Some(n)
    ensures Names(Entry(Some(n.address), Some(n.mask)), a, length) <==> Names(e, a, length)
  {
    hide And;
    ParsedNetwork(e.ip, e.mask);
    if length <= 32 {
      RunOfOnes(n.address, a, length);
      RunOfOnes(e.ip.value, a, length);
    }
  }

  /** What a connection that came up does to the route of every address. The gateway keeps its own. With a list
      that has anything readable on it, the caller's or else the gateway's, exactly the addresses move that some
      entry names more narrowly than the machine's table did. With no such list, full tunnel moves exactly what
      only the default route reached, or nothing did; and without it nothing moves. */
  lemma WhatTheTunnelCarries(options: Options, offer: Offer, name: string,
                             before: Table, after: Table, l: Ledger, a: Addr)
    requires Succeeded(SettingsFor(options, offer, name), before, after, l)
    ensures var list := ListFor(options, offer);
            var carried := if exists i :: 0 <= i < |list| && Readable(list[i]) then CarriedBy(list, before, a)
                           else options.fullTunnel && forall p :: p in before && p <= a ==> p == [];
            Resolve(after, a)
            == if carried && offer.gateway != Some(a) then Some(Route(None, name)) else Resolve(before, a)
  {
    hide Succeeded, LongestWithin, FirstOccurrences;
    var s := SettingsFor(options, offer, name);
    var list := ListFor(options, offer);
    CollectingKeepsNames(offer.published, before, a);
    assert s.routes != [] <==> exists i :: 0 <= i < |list| && Readable(list[i]) by {
      assert options.routes.Some? && s.routes != [] ==> Readable(list[0]);
    }
    if s.routes != [] {
      ApplyRefinesRouting(s, before, after, l, a);
      LongestIsTheNarrowest(s.routes, before, a);
    } else if options.fullTunnel {
      FullTunnelTakesTheDefault(s, before, after, l, a);
    } else {
      NothingWantedNothingMoves(s, before, after, l, a);
    }
  }

  /** The claim on a domain: the domain after a tilde, which may be there already. */
  predicate IsClaimOn(claim: string, domain: string) {
    && claim != "" && claim[0] == '~'
    && (domain == claim || (domain == claim[1..] && (domain == "" || domain[0] != '~')))
  }

  /** Which names the tunnel's servers are asked for: all of them if the tunnel carries everything, and otherwise
      those under the caller's domains, or else under the suffix the gateway published, if any. */
  lemma WhichNamesAreClaimed(options: Options, offer: Offer, name: string)
    ensures var list := ListFor(options, offer);
            var claims := Claims(SettingsFor(options, offer, name));
            var everything := options.fullTunnel && !exists i :: 0 <= i < |list| && Readable(list[i]);
            if everything then claims == ["~."]
            else if options.domains != [] then
              && |claims| == |options.domains|
              && forall i :: 0 <= i < |claims| ==> IsClaimOn(claims[i], options.domains[i])
            else if offer.suffix != "" then |claims| == 1 && IsClaimOn(claims[0], offer.suffix)
            else claims == []
  {
    hide FirstOccurrences;
    var s, list := SettingsFor(options, offer, name), ListFor(options, offer);
    CollectingKeepsNames(offer.published, map[], Ones(0));
    assert s.routes != [] <==> exists i :: 0 <= i < |list| && Readable(list[i]) by {
      assert options.routes.Some? && s.routes != [] ==> Readable(list[0]);
    }
    assert RoutingDomain(".") == "~.";
  }

  /** A published list that the kernel took in full carries exactly the addresses that some entry on it names
      more narrowly than the machine's table did; what it left alone had a route of its own. */
  lemma PublishedNetworksAreCarried(options: Options, offer: Offer, name: string,
                                    before: Table, after: Table, l: Ledger, a: Addr)
    requires var s := SettingsFor(options, offer, name);
             options.routes.None? && s.routes != [] && offer.gateway != Some(a) && Succeeded(s, before, after, l)
    ensures Resolve(after, a)
            == if CarriedBy(offer.published, before, a) then Some(Route(None, name)) else Resolve(before, a)
    ensures forall p :: p in l.conflicts ==> p in Pinned(before, offer.gateway)
  {
    hide LongestWithin, FirstOccurrences;
    var s := SettingsFor(options, offer, name);
    ApplyRefinesRouting(s, before, after, l, a);
    LongestIsTheNarrowest(s.routes, before, a);
    CollectingKeepsNames(offer.published, before, a);
    PublishedDestinationsAreDistinct(offer.published);
    DistinctConflictOnlyWithTheTable(Pinned(before, offer.gateway), Wanted(s));
  }

  /** Those the kernel can take, that is; the others are all None to it. */
  lemma PublishedDestinationsAreDistinct(entries: seq<Entry>)
    requires None !in Destinations(FirstOccurrences(entries))
    ensures Distinct(Destinations(FirstOccurrences(entries)))
  {
    hide MaskLength;
    var networks := FirstOccurrences(entries);
    var wanted := Destinations(networks);
    CollectedAreDistinct(entries);
    assert forall i :: 0 <= i < |networks| ==> wanted[i] == Destination(networks[i]);
    forall i, j | 0 <= i < j < |networks| ensures wanted[i] != wanted[j] {
      PublishedIsParsed(entries, networks[i]);
      PublishedIsParsed(entries, networks[j]);
      assert wanted[i] in wanted;
      if wanted[i] == wanted[j] {
        DestinationIsInjective(networks[i].address, networks[i].mask, networks[j].address, networks[j].mask);
      }
    }
  }

  /** What the list holds has already been masked: parsing it again changes nothing. */
  lemma PublishedIsParsed(entries: seq<Entry>, n: Network)
    requires n in FirstOccurrences(entries)
    ensures ParseNetwork(Some(n.address), Some(n.mask)) == Some(n)
  {
    CollectedAreDistinct(entries);
    var i :| 0 <= i < |entries| && ParseNetwork(entries[i].ip, entries[i].mask) == Some(n);
    ParsedNetwork(entries[i].ip, entries[i].mask);
  }
}
