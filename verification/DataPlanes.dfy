/** What the two pumps do with one packet, and what that means for all of them: internal/service/vpn/connection.go.
    When they stop is in Pumps. */
module DataPlanes {
  import opened Bytes
  import opened Frames
  import opened Packets
  import opened Tunnels
  import Sessions
  import TunAdapters

  const PROTOCOL_IPV4: uint16 := 0x0021

  /** What the tunnel pump makes of a frame. */
  datatype Arrival = Undecodable | Datagram(data: seq<byte>) | Control(packet: Packet)

  function Arrive(frame: seq<byte>): Arrival {
    match Decode(frame)
    case Err(_) => Undecodable
    case Ok(p) => if p.protocol == PROTOCOL_IPV4 then Datagram(p.data) else Control(p)
  }

  /** The frame's payload for what the device pump has read. */
  function Departing(data: seq<byte>): seq<byte> {
    Encode(Packet(PROTOCOL_IPV4, 0, 0, data))
  }

  function Departures(datagrams: seq<seq<byte>>): (frames: seq<seq<byte>>)
    ensures |frames| == |datagrams|
  {
    seq(|datagrams|, i requires 0 <= i < |datagrams| => Departing(datagrams[i]))
  }

  /** What reaches the device of a number of frames, in order. */
  function Datagrams(frames: seq<seq<byte>>): seq<seq<byte>> {
    if frames == [] then []
    else
      var before := Datagrams(frames[..|frames| - 1]);
      match Arrive(frames[|frames| - 1])
      case Datagram(data) => if data == [] then before else before + [data]
      case _ => before
  }

  function Sum(datagrams: seq<seq<byte>>): nat {
    if datagrams == [] then 0 else Sum(datagrams[..|datagrams| - 1]) + |datagrams[|datagrams| - 1]|
  }

  datatype Stop = InterfaceFailed | ControlFailed(error: Sessions.SessionError) | TunnelFailed(cause: FrameError)

  class Plane {
    const adapter: TunAdapters.Adapter
    const session: Sessions.Session
    const tunnel: Tunnels.Tunnel
    var bytesIn: nat
    var bytesOut: nat

    constructor (adapter: TunAdapters.Adapter, session: Sessions.Session, tunnel: Tunnels.Tunnel)
      ensures this.adapter == adapter && this.session == session && this.tunnel == tunnel
      ensures bytesIn == 0 && bytesOut == 0
    {
      this.adapter, this.session, this.tunnel := adapter, session, tunnel;
      bytesIn, bytesOut := 0, 0;
    }

    /** The body of pumpTunnelToDevice, once a frame has been read. */
    method TakeIn(frame: seq<byte>) returns (stop: Option<Stop>)
      requires adapter.Valid()
      modifies this`bytesIn, adapter`writeBuf, adapter.writeBuf, adapter.device`sent, session, session.transport
      ensures adapter.Valid() && (adapter.writeBuf == old(adapter.writeBuf) || fresh(adapter.writeBuf))
      ensures match Arrive(frame)
              case Undecodable =>
                && stop.None? && bytesIn == old(bytesIn) && adapter.device.sent == old(adapter.device.sent)
                && session.View() == old(session.View())
                && session.transport.Contents() == old(session.transport.Contents())
              case Datagram(data) =>
                && (stop.None? <==> data == [] || adapter.device.writable)
                && bytesIn == old(bytesIn) + (if stop.None? then |data| else 0)
                && adapter.device.sent
                   == old(adapter.device.sent) + (if stop.None? && data != [] then [data] else [])
                && session.View() == old(session.View())
                && session.transport.Contents() == old(session.transport.Contents())
              case Control(p) =>
                && bytesIn == old(bytesIn) && adapter.device.sent == old(adapter.device.sent)
                && var writable := old(session.transport.capacity) > 0;
                   var h := if p.protocol == PROTOCOL_LCP then Sessions.LcpStep(old(session.View()), p, writable)
                            else if p.protocol == PROTOCOL_IPCP then Sessions.IpcpStep(old(session.View()), p, writable)
                            else Sessions.Handled(old(session.View()), [], None);
                && session.View() == h.state
                && Sessions.Wrote(old(session.transport.Contents()), h, session.transport.Contents())
                && (stop == if h.failure.Some? then Some(ControlFailed(h.failure.value)) else None)
    {
      hide Decode, Sessions.LcpStep, Sessions.IpcpStep;
      assert Decode(frame).Err? <==> Arrive(frame).Undecodable?;
      var decoded := Decode(frame);
      if decoded.Err? {
        return None;
      }
      var p := decoded.value;
      if p.protocol != PROTOCOL_IPV4 {
        var failure := session.HandleControl(p);
        return if failure.Some? then Some(ControlFailed(failure.value)) else None;
      }
      var packet := new byte[|p.data|](i requires 0 <= i < |p.data| => p.data[i]);
      assert packet[..] == p.data;
      var written, ok := adapter.Write(packet);
      if !ok {
        return Some(InterfaceFailed);
      }
      bytesIn := bytesIn + written;
      stop := None;
    }

    /** A number of frames, one after the other, as long as nothing stops the pump: what is in them for the device
        has reached it, in order, and has been counted. */
    method TakeInAll(frames: seq<seq<byte>>) returns (taken: nat, stop: Option<Stop>)
      requires adapter.Valid()
      modifies this`bytesIn, adapter`writeBuf, adapter.writeBuf, adapter.device`sent, session, session.transport
      ensures taken <= |frames| && (stop.None? <==> taken == |frames|)
      ensures adapter.device.sent == old(adapter.device.sent) + Datagrams(frames[..taken])
      ensures bytesIn == old(bytesIn) + Sum(Datagrams(frames[..taken]))
    {
      hide Arrive, Sessions.LcpStep, Sessions.IpcpStep;
      taken, stop := 0, None;
      while taken < |frames|
        invariant taken <= |frames| && adapter.Valid() && stop.None?
        invariant adapter.writeBuf == old(adapter.writeBuf) || fresh(adapter.writeBuf)
        invariant adapter.device.sent == old(adapter.device.sent) + Datagrams(frames[..taken])
        invariant bytesIn == old(bytesIn) + Sum(Datagrams(frames[..taken]))
      {
        assert frames[..taken + 1][..taken] == frames[..taken];
        stop := TakeIn(frames[taken]);
        if stop.Some? {
          return;
        }
        SumGrows(Datagrams(frames[..taken]), Arrive(frames[taken]));
        taken := taken + 1;
      }
    }

    /** The body of pumpDeviceToTunnel, once a packet has been read. */
    method SendOut(data: seq<byte>) returns (stop: Option<Stop>)
      modifies this`bytesOut, tunnel.conn`written
      ensures stop.None? <==> |data| + 4 <= MAX_FRAME_LEN && !tunnel.conn.broken
      ensures bytesOut == old(bytesOut) + if stop.None? then |data| else 0
      ensures tunnel.conn.written
              == old(tunnel.conn.written) + if stop.None? then FrameBytes(Departing(data)) else []
    {
      DepartingFits(data);
      var failure := tunnel.WritePacket(Departing(data));
      if failure.Some? {
        return Some(TunnelFailed(failure.value));
      }
      bytesOut := bytesOut + |data|;
      stop := None;
    }
  }

  lemma SumGrows(datagrams: seq<seq<byte>>, arrival: Arrival)
    ensures arrival.Datagram? ==> Sum(datagrams + [arrival.data]) == Sum(datagrams) + |arrival.data|
  {
    if arrival.Datagram? {
      assert (datagrams + [arrival.data])[..|datagrams|] == datagrams;
    }
  }

  lemma DepartingFits(data: seq<byte>)
    ensures |Departing(data)| == |data| + 4
  {
    BodyFields(Packet(PROTOCOL_IPV4, 0, 0, data));
  }

  lemma DepartedArrives(data: seq<byte>)
    ensures Arrive(Departing(data)) == Datagram(data)
  {
    RoundTrip(Packet(PROTOCOL_IPV4, 0, 0, data));
  }

  lemma {:induction false} DepartedArrive(datagrams: seq<seq<byte>>)
    requires forall i :: 0 <= i < |datagrams| ==> datagrams[i] != []
    ensures Datagrams(Departures(datagrams)) == datagrams
  {
    hide Arrive, Departing;
    if datagrams != [] {
      var n := |datagrams| - 1;
      DepartedArrive(datagrams[..n]);
      DepartedArrives(datagrams[n]);
      assert Departures(datagrams)[..n] == Departures(datagrams[..n]);
      assert datagrams == datagrams[..n] + [datagrams[n]];
    }
  }

  /** End to end: whatever one side's device gives up reaches the other side's device, every packet whole, in order and
      once, through both codecs and after whatever head the answer started with, and no byte behind them is touched. */
  lemma DevicePacketsArrive(lines: seq<seq<byte>>, datagrams: seq<seq<byte>>, rest: seq<byte>)
    requires lines == [] || IsAcceptingHead(lines)
    requires datagrams != [] && forall i :: 0 <= i < |datagrams| ==> 1 <= |datagrams[i]| <= MAX_FRAME_LEN - 4
    ensures var wire := OptionalHead(lines) + (StreamBytes(Departures(datagrams)) + rest);
            var read := ReadPackets(false, wire, |datagrams|);
            read.rest == rest && Datagrams(read.payloads) == datagrams
  {
    hide ReadPackets, FrameBytes, Departing, Datagrams, IsAcceptingHead, OptionalHead, StreamBytes;
    forall i | 0 <= i < |datagrams| ensures Framable(Departures(datagrams)[i]) {
      DepartingFits(datagrams[i]);
    }
    StreamRoundTrip(lines, Departures(datagrams), rest);
    DepartedArrive(datagrams);
  }
}
