/** The LCP and IPCP options the client builds and reads: internal/ppp/options.go. */
module LinkOptions {
  import opened Bytes
  import opened Packets

  const LCP_MRU: byte := 1
  const LCP_ACCM: byte := 2
  const LCP_MAGIC_NUMBER: byte := 5

  const IPCP_IP_ADDRESS: byte := 3
  const IPCP_PRIMARY_DNS: byte := 129
  const IPCP_SECOND_DNS: byte := 131

  const DEFAULT_MRU: uint16 := 1492

  /** Four bytes: an IPv4 address or a magic number. */
  type Quad = q: seq<byte> | |q| == 4 witness [0, 0, 0, 0]

  const ZERO: Quad := [0, 0, 0, 0]

  datatype AddressError = WrongSize(kind: byte, size: nat)

  /** acceptableLCPOptions */
  predicate Acceptable(option: LinkOption) {
    option.kind == LCP_MRU || option.kind == LCP_ACCM || option.kind == LCP_MAGIC_NUMBER
  }

  function Accepted(options: seq<LinkOption>): seq<LinkOption> {
    if options == [] then []
    else (if Acceptable(options[0]) then [options[0]] else []) + Accepted(options[1..])
  }

  /** The unacceptable options, in the order they were asked for. */
  function Rejected(options: seq<LinkOption>): seq<LinkOption> {
    if options == [] then []
    else (if Acceptable(options[0]) then [] else [options[0]]) + Rejected(options[1..])
  }

  method ReviewLCPOptions(options: seq<LinkOption>) returns (accepted: seq<LinkOption>, rejected: seq<LinkOption>)
    ensures accepted == Accepted(options) && rejected == Rejected(options)
  {
    accepted, rejected := [], [];
    for i := 0 to |options|
      invariant accepted + Accepted(options[i..]) == Accepted(options)
      invariant rejected + Rejected(options[i..]) == Rejected(options)
    {
      assert options[i..][1..] == options[i + 1..];
      if Acceptable(options[i]) {
        accepted := accepted + [options[i]];
      } else {
        rejected := rejected + [options[i]];
      }
    }
  }

  function MruOption(mru: uint16): LinkOption {
    LinkOption(LCP_MRU, WriteUint16(mru))
  }

  function MagicNumberOption(magic: Quad): LinkOption {
    LinkOption(LCP_MAGIC_NUMBER, magic)
  }

  /** An absent address is sent as zeroes, which invites the peer to assign one. */
  function AddressOrZero(ip: Option<Quad>): Quad {
    match ip
    case Some(address) => address
    case None => ZERO
  }

  function IpOption(kind: byte, ip: Option<Quad>): LinkOption {
    LinkOption(kind, AddressOrZero(ip))
  }

  function OptionIP(option: LinkOption): Result<Quad, AddressError> {
    if |option.value| != 4 then Err(WrongSize(option.kind, |option.value|)) else Ok(option.value)
  }

  /** The review loses and invents nothing. */
  lemma {:induction false} ReviewConserves(options: seq<LinkOption>)
    ensures multiset(Accepted(options)) + multiset(Rejected(options)) == multiset(options)
  {
    if options != [] {
      ReviewConserves(options[1..]);
      assert options == [options[0]] + options[1..];
    }
  }

  /** Exactly the options that are no MRU, no character map and no magic number are rejected. */
  lemma {:induction false} ReviewSeparates(options: seq<LinkOption>, o: LinkOption)
    ensures o in Rejected(options) <==> o in options && o.kind !in {LCP_MRU, LCP_ACCM, LCP_MAGIC_NUMBER}
    ensures o in Accepted(options) <==> o in options && o.kind in {LCP_MRU, LCP_ACCM, LCP_MAGIC_NUMBER}
  {
    if options != [] {
      ReviewSeparates(options[1..], o);
    }
  }

  /** A request without unacceptable options is accepted as it stands. */
  lemma {:induction false} NothingRejected(options: seq<LinkOption>)
    ensures Rejected(options) == [] ==> Accepted(options) == options
    ensures Rejected(options) == [] <==> forall i :: 0 <= i < |options| ==>
              options[i].kind in {LCP_MRU, LCP_ACCM, LCP_MAGIC_NUMBER}
  {
    if options != [] {
      NothingRejected(options[1..]);
      assert options == [options[0]] + options[1..];
    }
  }

  lemma {:induction false} RejectionIsNoLonger(options: seq<LinkOption>)
    ensures RenderedSize(Rejected(options)) <= RenderedSize(options)
    ensures WellSized(options) ==> WellSized(Rejected(options))
  {
    if options != [] {
      RejectionIsNoLonger(options[1..]);
      if !Acceptable(options[0]) {
        assert Rejected(options)[1..] == Rejected(options[1..]);
      } else {
        assert Rejected(options) == Rejected(options[1..]);
      }
    }
  }
}
