/** IPv4 routing as the tunnel changes it: longest-prefix match, networks the gateway publishes, and what
    adding routes over one device does to every address. internal/service/netcfg/linux.go and
    internal/forti/session.go. An address is its 32 bits, most significant first. */
module Routes {
  import opened Bytes

  type Addr = bits: seq<bool> | |bits| == 32 witness seq(32, i => false)

  /** A canonical destination: the bits that must match. The default route is the empty one. */
  type Prefix = bits: seq<bool> | |bits| <= 32 witness []

  datatype Route = Route(via: Option<Addr>, dev: string)

  type Table = map<Prefix, Route>

  // --- Longest-prefix match ---

  /** The length of the longest key of at most n bits that matches, or -1. */
  function LongestWithin(keys: set<Prefix>, a: Addr, n: nat): (longest: int)
    requires n <= 32
    ensures -1 <= longest <= n && (longest >= 0 ==> a[..longest] in keys)
  {
    if a[..n] in keys then n else if n == 0 then -1 else LongestWithin(keys, a, n - 1)
  }

  function Longest(keys: set<Prefix>, a: Addr): (longest: int)
    ensures -1 <= longest <= 32 && (longest >= 0 ==> a[..longest] in keys)
  {
    LongestWithin(keys, a, 32)
  }

  /** The kernel's answer for an address. */
  function Resolve(table: Table, a: Addr): Option<Route> {
    var n := Longest(table.Keys, a);
    if n < 0 then None else Some(table[a[..n]])
  }

  lemma {:induction false} NothingLonger(keys: set<Prefix>, a: Addr, n: nat, p: Prefix)
    requires n <= 32 && |p| <= n && p in keys && p <= a
    ensures |p| <= LongestWithin(keys, a, n)
    decreases n
  {
    if a[..n] !in keys {
      assert a[..|p|] == p;
      NothingLonger(keys, a, n - 1, p);
    }
  }

  /** A key matches, and no matching key is longer. */
  predicate Best(table: Table, a: Addr, p: Prefix) {
    p in table && p <= a && forall q :: q in table && q <= a ==> |q| <= |p|
  }

  /** The answer is the route of the one best match, and there is none exactly when nothing matches. */
  lemma ResolveIsLongestMatch(table: Table, a: Addr)
    ensures forall r :: Resolve(table, a) == Some(r) <==> exists p :: Best(table, a, p) && table[p] == r
    ensures Resolve(table, a).None? <==> forall p :: p in table ==> !(p <= a)
  {
    var n := Longest(table.Keys, a);
    forall q | q in table && q <= a ensures |q| <= n {
      NothingLonger(table.Keys, a, 32, q);
    }
    if n >= 0 {
      assert Best(table, a, a[..n]);
      forall p | Best(table, a, p) ensures p == a[..n] {
        assert a[..|p|] == p;
      }
    }
  }

  function Max(x: int, y: int): int {
    if x < y then y else x
  }

  lemma {:induction false} LongestOfUnion(k: set<Prefix>, l: set<Prefix>, a: Addr, n: nat)
    requires n <= 32
    ensures LongestWithin(k + l, a, n) == Max(LongestWithin(k, a, n), LongestWithin(l, a, n))
    decreases n
  {
    if a[..n] !in k + l && n > 0 {
      LongestOfUnion(k, l, a, n - 1);
    }
  }

  // --- Adding routes over a device ---

  /** What is asked for: destinations, or None where the text is not one the kernel accepts. */
  function Keys(wanted: seq<Option<Prefix>>): set<Prefix> {
    set o | o in wanted && o.Some? :: o.value
  }

  /** Every wanted destination goes to the device, except those that already have a route. */
  function Overlay(table: Table, wanted: seq<Option<Prefix>>, dev: string): Table {
    map p | p in table.Keys + Keys(wanted) :: if p in table then table[p] else Route(None, dev)
  }

  /** An address moves to the device exactly when what is wanted matches it more closely than what was
      there; a tie is kept by the route that was there. */
  lemma OverlayResolves(table: Table, wanted: seq<Option<Prefix>>, dev: string, a: Addr)
    ensures Resolve(Overlay(table, wanted, dev), a)
            == if Longest(Keys(wanted), a) > Longest(table.Keys, a) then Some(Route(None, dev)) else Resolve(table, a)
  {
    var after := Overlay(table, wanted, dev);
    assert after.Keys == table.Keys + Keys(wanted);
    LongestOfUnion(table.Keys, Keys(wanted), a, 32);
    var n := Longest(after.Keys, a);
    if Longest(Keys(wanted), a) > Longest(table.Keys, a) && a[..n] in table {
      NothingLonger(table.Keys, a, 32, a[..n]);
    }
  }

  lemma OverlayGrows(table: Table, wanted: seq<Option<Prefix>>, p: Prefix, dev: string)
    ensures Overlay(table, [], dev) == table
    ensures Overlay(table, wanted + [Some(p)], dev)
            == (var t := Overlay(table, wanted, dev); if p in t then t else t[p := Route(None, dev)])
  {
    assert Keys([]) == {};
    assert Keys(wanted + [Some(p)]) == Keys(wanted) + {p} by {
      forall q | q in Keys(wanted) + {p} ensures q in Keys(wanted + [Some(p)]) {
        assert Some(q) in wanted + [Some(p)];
      }
    }
  }

  /** The wanted destinations that had a route before their turn came, in order, repeats included. */
  function Conflicting(table: Table, wanted: seq<Option<Prefix>>): seq<Prefix> {
    if wanted == [] then []
    else
      var before, o := wanted[..|wanted| - 1], wanted[|wanted| - 1];
      Conflicting(table, before)
      + if o.Some? && (o.value in table || o.value in Keys(before)) then [o.value] else []
  }

  /** Every wanted destination either conflicts or adds one route to the table. */
  lemma {:induction false} InstalledAndConflicting(table: Table, wanted: seq<Option<Prefix>>, dev: string)
    requires None !in wanted
    ensures |Overlay(table, wanted, dev)| - |table| + |Conflicting(table, wanted)| == |wanted|
    ensures forall p :: p in Conflicting(table, wanted) ==> Some(p) in wanted
  {
    if wanted == [] {
      OverlayGrows(table, [], [], dev);
    } else {
      var before := wanted[..|wanted| - 1];
      var p := wanted[|wanted| - 1].value;
      assert wanted == before + [Some(p)];
      InstalledAndConflicting(table, before, dev);
      OverlayGrows(table, before, p, dev);
    }
  }

  predicate Distinct<T(==)>(s: seq<T>) {
    forall i, j :: 0 <= i < j < |s| ==> s[i] != s[j]
  }

  /** Without repeats, only the routes that were there before can be in the way. */
  lemma {:induction false} DistinctConflictOnlyWithTheTable(table: Table, wanted: seq<Option<Prefix>>)
    requires Distinct(wanted)
    ensures forall p :: p in Conflicting(table, wanted) <==> Some(p) in wanted && p in table
  {
    if wanted != [] {
      var before, o := wanted[..|wanted| - 1], wanted[|wanted| - 1];
      assert wanted == before + [o];
      DistinctConflictOnlyWithTheTable(table, before);
      assert o !in before;
    }
  }

  // --- Taking routes away ---

  function WithoutDevice(table: Table, dev: string): Table {
    map p | p in table && table[p].dev != dev :: table[p]
  }

  predicate NoRouteOver(table: Table, dev: string) {
    forall p :: p in table ==> table[p].dev != dev
  }

  /** Taking the device down undoes an overlay of any wanted destinations over it. */
  lemma OverlayIsUndone(table: Table, wanted: seq<Option<Prefix>>, dev: string)
    requires NoRouteOver(table, dev)
    ensures WithoutDevice(Overlay(table, wanted, dev), dev) == table
  {
  }

  // --- Both halves of the address space ---

  const HALVES: seq<Option<Prefix>> := [Some([false]), Some([true])]

  lemma HalvesCoverEverything(a: Addr)
    ensures Longest(Keys(HALVES), a) == 1
  {
    var half: Prefix := [a[0]];
    assert a[..1] == half;
    assert Some(half) == HALVES[if a[0] then 1 else 0];
    assert Some(half) in HALVES;
    assert a[..1] in Keys(HALVES);
    NothingLonger(Keys(HALVES), a, 32, a[..1]);
  }

  // --- Networks as the gateway publishes them ---

  function And(a: Addr, b: Addr): Addr {
    seq(32, i requires 0 <= i < 32 => a[i] && b[i])
  }

  datatype Network = Network(address: Addr, mask: Addr)

  /** The address agrees with another one wherever the mask says so. */
  predicate Inside(a: Addr, address: Addr, mask: Addr) {
    forall i :: 0 <= i < 32 && mask[i] ==> a[i] == address[i]
  }

  function Ones(n: nat): Addr
    requires n <= 32
  {
    seq(32, i => i < n)
  }

  /** The mask is some ones followed by zeros: net.IPMask.Size knows a length for it. */
  function MaskLength(mask: Addr, n: nat): Option<nat>
    requires n <= 32
  {
    if mask == Ones(n) then Some(n) else if n == 0 then None else MaskLength(mask, n - 1)
  }

  /** The destination that `ip route` reads out of the network's text, if it can. */
  function Destination(network: Network): Option<Prefix> {
    match MaskLength(network.mask, 32)
    case Some(n) => if n <= 32 then Some(network.address[..n]) else None
    case None => None
  }

  /** parseNetwork, its two texts already read as IPv4 addresses or refused. */
  function ParseNetwork(address: Option<Addr>, mask: Option<Addr>): Option<Network> {
    if address.None? || mask.None? then None else Some(Network(And(address.value, mask.value), mask.value))
  }

  lemma {:induction false} MaskLengthIs(mask: Addr, n: nat)
    requires n <= 32
    ensures MaskLength(mask, n).Some? ==> MaskLength(mask, n).value <= n && mask == Ones(MaskLength(mask, n).value)
    ensures MaskLength(mask, n).None? ==> forall k: nat :: k <= n ==> mask != Ones(k)
    decreases n
  {
    if mask != Ones(n) && n > 0 {
      MaskLengthIs(mask, n - 1);
    }
  }

  lemma OnesAreDistinct(m: nat, n: nat)
    requires m <= 32 && n <= 32 && Ones(m) == Ones(n)
    ensures m == n
  {
    var i := if m < n then m else n;
    assert i < 32 ==> (Ones(m)[i] <==> i < m) && (Ones(n)[i] <==> i < n);
  }

  /** There is a destination for a mask that is a run of ones and for no other, and it matches exactly the
      addresses inside the network. */
  lemma DestinationMatches(n: Network, a: Addr)
    ensures var d := Destination(n);
            && (d.Some? <==> exists k: nat :: k <= 32 && n.mask == Ones(k))
            && (d.Some? ==> n.mask == Ones(|d.value|) && (d.value <= a <==> Inside(a, n.address, n.mask)))
  {
    MaskLengthIs(n.mask, 32);
    if MaskLength(n.mask, 32).Some? {
      var k := MaskLength(n.mask, 32).value;
      var d := n.address[..k];
      if d <= a {
        assert forall i :: 0 <= i < k ==> a[i] == d[i];
      }
      if Inside(a, n.address, n.mask) {
        forall i | 0 <= i < k ensures a[i] == d[i] {
          assert n.mask[i];
        }
        assert a[..k] == d;
      }
    }
  }

  /** A published entry becomes a network if both its texts can be read: the same addresses are inside, and no
      bit is left where the mask has none. */
  lemma ParsedNetwork(address: Option<Addr>, mask: Option<Addr>)
    ensures ParseNetwork(address, mask).Some? <==> address.Some? && mask.Some?
    ensures ParseNetwork(address, mask).Some? ==>
              var n := ParseNetwork(address, mask).value;
              && n.mask == mask.value && And(n.address, n.mask) == n.address
              && forall a :: Inside(a, n.address, n.mask) <==> Inside(a, address.value, mask.value)
  {
    if address.Some? && mask.Some? {
      var n := ParseNetwork(address, mask).value;
      assert forall i :: 0 <= i < 32 && mask.value[i] ==> n.address[i] == address.value[i];
      assert And(n.address, n.mask) == n.address;
    }
  }

  /** A published entry becomes a destination that matches exactly the addresses with the entry's own bits
      wherever its mask says so, and only for masks that are a run of ones is there one. */
  lemma DestinationMatchesTheNetwork(address: Addr, mask: Addr, a: Addr)
    ensures var d := Destination(ParseNetwork(Some(address), Some(mask)).value);
            && (d.Some? <==> exists n: nat :: n <= 32 && mask == Ones(n))
            && (d.Some? ==> mask == Ones(|d.value|)
                            && (d.value <= a <==> forall i :: 0 <= i < 32 && mask[i] ==> a[i] == address[i]))
  {
    hide And;
    ParsedNetwork(Some(address), Some(mask));
    DestinationMatches(ParseNetwork(Some(address), Some(mask)).value, a);
  }

  /** Different published networks never become the same destination. */
  lemma DestinationIsInjective(address: Addr, mask: Addr, address': Addr, mask': Addr)
    requires Destination(ParseNetwork(Some(address), Some(mask)).value).Some?
    requires Destination(ParseNetwork(Some(address), Some(mask)).value)
             == Destination(ParseNetwork(Some(address'), Some(mask')).value)
    ensures ParseNetwork(Some(address), Some(mask)) == ParseNetwork(Some(address'), Some(mask'))
  {
    MaskLengthIs(mask, 32);
    MaskLengthIs(mask', 32);
    var x := ParseNetwork(Some(address), Some(mask)).value;
    var y := ParseNetwork(Some(address'), Some(mask')).value;
    var n := MaskLength(mask, 32).value;
    var n' := MaskLength(mask', 32).value;
    assert n == |x.address[..n]| == |y.address[..n']| == n';
    forall i | 0 <= i < 32 ensures x.address[i] == y.address[i] {
      if i < n {
        assert x.address[..n][i] == y.address[..n][i];
      }
    }
    assert x.address == y.address;
  }

  /** An entry of the published list, as text already read or refused. */
  datatype Entry = Entry(ip: Option<Addr>, mask: Option<Addr>)

  /** The readable networks in order, each at its first occurrence. */
  function FirstOccurrences(entries: seq<Entry>): seq<Network> {
    if entries == [] then []
    else
      var before := FirstOccurrences(entries[..|entries| - 1]);
      var network := ParseNetwork(entries[|entries| - 1].ip, entries[|entries| - 1].mask);
      if network.Some? && network.value !in before then before + [network.value] else before
  }

  /** The loop of GetConfig that skips what it cannot read and collapses repeats. */
  method CollectNetworks(entries: seq<Entry>) returns (networks: seq<Network>)
    ensures networks == FirstOccurrences(entries)
  {
    var seen: set<Network> := {};
    networks := [];
    for i := 0 to |entries|
      invariant networks == FirstOccurrences(entries[..i])
      invariant forall n :: n in seen <==> n in networks
    {
      assert entries[..i + 1][..i] == entries[..i];
      var network := ParseNetwork(entries[i].ip, entries[i].mask);
      if network.None? {
        continue;
      }
      if network.value in seen {
        continue;
      }
      seen := seen + {network.value};
      networks := networks + [network.value];
    }
    assert entries[..|entries|] == entries;
  }

  lemma {:induction false} CollectedAreDistinct(entries: seq<Entry>)
    ensures Distinct(FirstOccurrences(entries))
    ensures forall n :: n in FirstOccurrences(entries) <==>
              exists i :: 0 <= i < |entries| && ParseNetwork(entries[i].ip, entries[i].mask) == Some(n)
  {
    if entries != [] {
      var before, last := entries[..|entries| - 1], entries[|entries| - 1];
      CollectedAreDistinct(before);
      var networks := FirstOccurrences(entries);
      forall n | n in networks
        ensures exists i :: 0 <= i < |entries| && ParseNetwork(entries[i].ip, entries[i].mask) == Some(n)
      {
        if n in FirstOccurrences(before) {
          var i :| 0 <= i < |before| && ParseNetwork(before[i].ip, before[i].mask) == Some(n);
          assert entries[i] == before[i];
        } else {
          assert ParseNetwork(last.ip, last.mask) == Some(n);
        }
      }
      forall i | 0 <= i < |entries| && ParseNetwork(entries[i].ip, entries[i].mask).Some?
        ensures ParseNetwork(entries[i].ip, entries[i].mask).value in networks
      {
        if i < |before| {
          assert before[i] == entries[i];
          assert ParseNetwork(before[i].ip, before[i].mask) == ParseNetwork(entries[i].ip, entries[i].mask);
        }
      }
    }
  }

  /** Where the list has the network first. */
  function FirstAt(entries: seq<Entry>, n: Network): (i: nat)
    ensures i <= |entries|
  {
    if entries == [] then 0
    else
      var last := |entries| - 1;
      var i := FirstAt(entries[..last], n);
      if i < last || ParseNetwork(entries[last].ip, entries[last].mask) == Some(n) then i else |entries|
  }

  predicate InListOrder(entries: seq<Entry>, networks: seq<Network>) {
    && (forall i :: 0 <= i < |networks| ==> FirstAt(entries, networks[i]) < |entries|)
    && (forall i, j :: 0 <= i < j < |networks| ==> FirstAt(entries, networks[i]) < FirstAt(entries, networks[j]))
  }

  /** The order of the list is kept: networks stand in the order in which the list has them first. */
  lemma {:induction false} CollectedInOrder(entries: seq<Entry>)
    ensures InListOrder(entries, FirstOccurrences(entries))
  {
    if entries != [] {
      var early := entries[..|entries| - 1];
      var before, networks := FirstOccurrences(early), FirstOccurrences(entries);
      CollectedInOrder(early);
      FirstAtSkips(early);
      forall i | 0 <= i < |before| ensures FirstAt(entries, networks[i]) == FirstAt(early, before[i]) < |early| {
        assert FirstAt(early, before[i]) < |early|;
      }
      if |networks| > |before| {
        assert networks == before + [networks[|before|]] && networks[|before|] !in before;
        assert FirstAt(entries, networks[|before|]) == |early|;
      }
    }
  }

  lemma {:induction false} FirstAtSkips(entries: seq<Entry>)
    ensures forall n :: n !in FirstOccurrences(entries) ==> FirstAt(entries, n) == |entries|
  {
    if entries != [] {
      FirstAtSkips(entries[..|entries| - 1]);
    }
  }
}
