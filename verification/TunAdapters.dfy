/** The adapter from a batched, offset-based tun device to one packet at a time:
    internal/service/tundev/device.go, and the buffer its pump reads into
    (internal/service/vpn/connection.go). */
module TunAdapters {
  import opened Bytes

  const HEADROOM := 16

  const SLACK := 128

  const DEFAULT_MTU := 1400

  /** What one read of the kernel device will produce. */
  datatype Batch = Batch(packets: seq<seq<byte>>) | Broken

  /** The library delivers a batch only if it has a buffer for every packet and room in each. */
  predicate Deliverable(packets: seq<seq<byte>>, slots: nat, space: nat) {
    |packets| <= slots && forall i :: 0 <= i < |packets| ==> |packets[i]| <= space
  }

  datatype DeviceFailure = TooManySegments | DeviceBroken

  /** The kernel device behind the library: the batches it will hand over, and what it was given. */
  class TunDevice {
    var batches: seq<Batch>
    var sent: seq<seq<byte>>
    var writable: bool
    const batchSize: int

    constructor (batches: seq<Batch>, batchSize: int)
      ensures this.batches == batches && this.batchSize == batchSize && sent == [] && writable
    {
      this.batches, this.batchSize, sent, writable := batches, batchSize, [], true;
    }

    /** Fills one buffer per packet from the offset on; the bytes before it are scratch space. */
    method Read(buffers: seq<array<byte>>, sizes: array<nat>, offset: nat)
      returns (count: nat, failure: Option<DeviceFailure>)
      requires |buffers| == sizes.Length
      requires forall i :: 0 <= i < |buffers| ==> offset <= buffers[i].Length == buffers[0].Length
      requires forall i, j :: 0 <= i < j < |buffers| ==> buffers[i] != buffers[j]
      modifies this`batches, sizes, buffers
      ensures old(batches) == [] ==> failure == Some(DeviceBroken) && batches == []
      ensures old(batches) != [] ==>
                && batches == old(batches)[1..]
                && match old(batches)[0]
                   case Broken => failure == Some(DeviceBroken)
                   case Batch(packets) =>
                     if Deliverable(packets, |buffers|, if |buffers| > 0 then buffers[0].Length - offset else 0)
                     then failure == None && Holds(packets, count, buffers, sizes, offset)
                     else failure == Some(TooManySegments)
    {
      count := 0;
      if batches == [] {
        return 0, Some(DeviceBroken);
      }
      var batch := batches[0];
      batches := batches[1..];
      if batch.Broken? {
        return 0, Some(DeviceBroken);
      }
      var packets := batch.packets;
      var space := if |buffers| > 0 then buffers[0].Length - offset else 0;
      if !Deliverable(packets, |buffers|, space) {
        return 0, Some(TooManySegments);
      }
      while count < |packets|
        invariant count <= |packets|
        invariant batches == old(batches)[1..]
        invariant forall k :: 0 <= k < count ==>
                    sizes[k] == |packets[k]| && buffers[k][offset..offset + sizes[k]] == packets[k]
        modifies sizes, buffers
      {
        sizes[count] := |packets[count]|;
        var buffer, packet := buffers[count], packets[count];
        forall i | 0 <= i < |packet| {
          buffer[offset + i] := packet[i];
        }
        assert buffer[offset..offset + |packet|] == packet;
        count := count + 1;
      }
      failure := None;
    }

    /** Hands over what follows the offset; the bytes before it are scratch space. */
    method Write(buffer: array<byte>, end: nat, offset: nat) returns (ok: bool)
      requires offset <= end <= buffer.Length
      modifies this`sent
      ensures ok == writable
      ensures sent == if ok then old(sent) + [buffer[offset..end]] else old(sent)
    {
      ok := writable;
      if ok {
        sent := sent + [buffer[offset..end]];
      }
    }
  }

  /** The buffers hold exactly these packets, behind the offset. */
  ghost predicate Holds(packets: seq<seq<byte>>, count: nat, buffers: seq<array<byte>>, sizes: array<nat>, offset: nat)
    requires |buffers| == sizes.Length
    reads sizes, buffers
  {
    && count == |packets| <= |buffers|
    && forall k :: 0 <= k < count ==>
         && offset + sizes[k] <= buffers[k].Length
         && buffers[k][offset..offset + sizes[k]] == packets[k]
  }

  // --- What the adapter computes ---

  /** The packets of the last batch still to be handed back, the batches the device still has, and the
      batches lost so far. */
  datatype View = View(current: seq<seq<byte>>, batches: seq<Batch>, dropped: nat)

  datatype Outcome = Packet(bytes: seq<byte>) | NoPacket | TooLong(size: nat) | Failed

  datatype ReadStep = ReadStep(outcome: Outcome, view: View)

  function HandBack(v: View, room: nat): ReadStep
    requires v.current != []
  {
    var packet := v.current[0];
    if |packet| > room then ReadStep(TooLong(|packet|), v)
    else ReadStep(Packet(packet), v.(current := v.current[1..]))
  }

  /** One Read into a buffer of `room` bytes, over `slots` internal buffers of `space` bytes each. */
  function ReadOnce(v: View, slots: nat, space: nat, room: nat): ReadStep {
    if v.current != [] then HandBack(v, room)
    else if v.batches == [] then ReadStep(Failed, v)
    else
      var v' := v.(batches := v.batches[1..]);
      match v.batches[0]
      case Broken => ReadStep(Failed, v')
      case Batch(packets) =>
        if !Deliverable(packets, slots, space) then ReadStep(NoPacket, v'.(dropped := v.dropped + 1))
        else if packets == [] then ReadStep(NoPacket, v')
        else HandBack(v'.(current := packets), room)
  }

  /** The packets behind the headroom of the buffers from one index to another. */
  ghost function Buffered(buffers: seq<array<byte>>, sizes: array<nat>, first: nat, end: nat): (packets: seq<seq<byte>>)
    requires first <= end <= |buffers| == sizes.Length
    requires forall i :: first <= i < end ==> HEADROOM + sizes[i] <= buffers[i].Length
    reads sizes, buffers
    ensures |packets| == end - first
    ensures forall k :: 0 <= k < end - first ==>
              packets[k] == buffers[first + k][HEADROOM..HEADROOM + sizes[first + k]]
    decreases end - first
  {
    if first == end then []
    else [buffers[first][HEADROOM..HEADROOM + sizes[first]]] + Buffered(buffers, sizes, first + 1, end)
  }

  lemma HeldIsBuffered(packets: seq<seq<byte>>, count: nat, buffers: seq<array<byte>>, sizes: array<nat>)
    requires |buffers| == sizes.Length && Holds(packets, count, buffers, sizes, HEADROOM)
    ensures count == |packets| <= |buffers|
    ensures forall k :: 0 <= k < count ==> HEADROOM + sizes[k] <= buffers[k].Length
    ensures Buffered(buffers, sizes, 0, count) == packets
  {
  }

  lemma NothingBuffered(buffers: seq<array<byte>>, sizes: array<nat>, i: nat)
    requires i <= |buffers| == sizes.Length
    ensures Buffered(buffers, sizes, i, i) == []
  {
  }

  datatype ReadFailure = OversizedPacket(size: nat, room: nat) | ReadingDevice

  class Adapter {
    const device: TunDevice
    const readBufs: seq<array<byte>>
    const readSizes: array<nat>
    const capacity: nat
    var readCount: nat
    var readNext: nat
    var writeBuf: array<byte>
    var dropped: nat

    ghost predicate Valid()
      reads this, readSizes, readBufs
    {
      ReadSideValid() && forall i :: 0 <= i < |readBufs| ==> readBufs[i] != writeBuf
    }

    /** The two directions are pumped by different goroutines and share no mutable field. */
    ghost predicate ReadSideValid()
      reads this`readNext, this`readCount, readSizes, readBufs
    {
      && HEADROOM <= capacity
      && |readBufs| == readSizes.Length >= 1
      && (forall i :: 0 <= i < |readBufs| ==> readBufs[i].Length == capacity)
      && (forall i, j :: 0 <= i < j < |readBufs| ==> readBufs[i] != readBufs[j])
      && readNext <= readCount <= |readBufs|
      && (forall i :: readNext <= i < readCount ==> HEADROOM + readSizes[i] <= capacity)
    }

    ghost function Abstract(): View
      requires ReadSideValid()
      reads this`readNext, this`readCount, this`dropped, device`batches, readSizes, readBufs
    {
      View(Buffered(readBufs, readSizes, readNext, readCount), device.batches, dropped)
    }

    constructor (device: TunDevice, capacity: nat)
      requires HEADROOM <= capacity
      ensures Valid() && this.device == device && this.capacity == capacity
      ensures |readBufs| == if device.batchSize < 1 then 1 else device.batchSize
      ensures writeBuf.Length == capacity
      ensures Abstract() == View([], device.batches, 0)
      ensures fresh(writeBuf) && fresh(readSizes) && (forall i :: 0 <= i < |readBufs| ==> fresh(readBufs[i]))
    {
      var batch := if device.batchSize < 1 then 1 else device.batchSize;
      var bufs: seq<array<byte>> := [];
      for i := 0 to batch
        invariant |bufs| == i
        invariant forall k :: 0 <= k < i ==> fresh(bufs[k]) && bufs[k].Length == capacity
        invariant forall j, k :: 0 <= j < k < i ==> bufs[j] != bufs[k]
      {
        var buf := new byte[capacity](_ => 0);
        bufs := bufs + [buf];
      }
      this.device, this.capacity := device, capacity;
      readBufs, readSizes := bufs, new nat[batch](_ => 0);
      writeBuf := new byte[capacity](_ => 0);
      readCount, readNext, dropped := 0, 0, 0;
    }

    /** The first half of Read: a new batch from the device. */
    method Refill() returns (outcome: Option<Outcome>)
      requires Valid() && readNext >= readCount
      modifies this`readCount, this`readNext, this`dropped, device`batches, readSizes, readBufs
      ensures Valid()
      ensures var v, v' := old(Abstract()), Abstract();
              if v.batches == [] then outcome == Some(Failed) && v' == v
              else match v.batches[0]
                   case Broken => outcome == Some(Failed) && v' == v.(batches := v.batches[1..])
                   case Batch(packets) =>
                     if !Deliverable(packets, |readBufs|, capacity - HEADROOM)
                     then outcome == Some(NoPacket) && v' == v.(batches := v.batches[1..], dropped := v.dropped + 1)
                     else v' == v.(batches := v.batches[1..], current := packets)
                          && outcome == if packets == [] then Some(NoPacket) else None
    {
      hide Buffered, Holds, Deliverable;
      NothingBuffered(readBufs, readSizes, readNext);
      var count, broken := device.Read(readBufs, readSizes, HEADROOM);
      if broken.Some? {
        // The library documents an overflowing batch as recoverable: it is lost, and reads go on.
        NothingBuffered(readBufs, readSizes, readNext);
        if broken.value == TooManySegments {
          dropped := dropped + 1;
          return Some(NoPacket);
        }
        return Some(Failed);
      }
      HeldIsBuffered(old(device.batches)[0].packets, count, readBufs, readSizes);
      readCount := count;
      readNext := 0;
      outcome := if count == 0 then Some(NoPacket) else None;
    }

    /** The second half of Read: one packet of the current batch. */
    method HandOver(packet: array<byte>) returns (n: nat, failure: Option<ReadFailure>)
      requires Valid() && readNext < readCount
      requires packet !in readBufs && packet != writeBuf
      modifies this`readNext, packet
      ensures Valid()
      ensures var step := HandBack(old(Abstract()), packet.Length);
              && Abstract() == step.view
              && Reported(step.outcome, n, failure, packet[..], old(packet[..]))
    {
      var index := readNext;
      var size := readSizes[index];
      ghost var bytes := readBufs[index][HEADROOM..HEADROOM + size];
      ghost var rest := Buffered(readBufs, readSizes, index + 1, readCount);
      assert Abstract().current == [bytes] + rest;
      if size > packet.Length {
        return 0, Some(OversizedPacket(size, packet.Length));
      }
      var source := readBufs[index];
      forall i | 0 <= i < size {
        packet[i] := source[HEADROOM + i];
      }
      assert packet[..size] == bytes;
      readNext := readNext + 1;
      assert Abstract().current == rest;
      n, failure := size, None;
    }

    method Read(packet: array<byte>) returns (n: nat, failure: Option<ReadFailure>)
      requires Valid()
      requires packet !in readBufs && packet != writeBuf
      modifies this`readCount, this`readNext, this`dropped, device`batches, readSizes, readBufs, packet
      ensures Valid()
      ensures var step := ReadOnce(old(Abstract()), |readBufs|, capacity - HEADROOM, packet.Length);
              && Abstract() == step.view
              && Reported(step.outcome, n, failure, packet[..], old(packet[..]))
    {
      if readNext >= readCount {
        assert Abstract().current == [];
        var outcome := Refill();
        if outcome == Some(Failed) {
          return 0, Some(ReadingDevice);
        }
        if outcome.Some? {
          return 0, None;
        }
      }
      n, failure := HandOver(packet);
    }

    method Write(packet: array<byte>) returns (n: nat, ok: bool)
      requires Valid()
      requires packet != writeBuf && packet !in readBufs
      modifies this`writeBuf, writeBuf, device`sent
      ensures Valid() && Abstract() == old(Abstract())
      ensures writeBuf == old(writeBuf) || fresh(writeBuf)
      ensures writeBuf.Length
              == if packet.Length > 0 && HEADROOM + packet.Length > old(writeBuf.Length) then HEADROOM + packet.Length
                 else old(writeBuf.Length)
      ensures ok <==> packet.Length == 0 || device.writable
      ensures n == if ok then packet.Length else 0
      ensures device.sent == if ok && packet.Length > 0 then old(device.sent) + [packet[..]] else old(device.sent)
      ensures packet[..] == old(packet[..])
    {
      hide Buffered;
      if packet.Length == 0 {
        return 0, true;
      }
      var needed := HEADROOM + packet.Length;
      if needed > writeBuf.Length {
        writeBuf := new byte[needed](_ => 0);
      }
      var target := writeBuf;
      forall i | 0 <= i < packet.Length {
        target[HEADROOM + i] := packet[i];
      }
      assert target[HEADROOM..needed] == packet[..];
      ok := device.Write(target, needed, HEADROOM);
      n := if ok then packet.Length else 0;
    }
  }

  /** How an outcome of the specification shows in what Read returns and in the caller's buffer. */
  ghost predicate Reported(outcome: Outcome, n: nat, failure: Option<ReadFailure>,
                           buffer: seq<byte>, before: seq<byte>)
  {
    match outcome
    case Packet(bytes) =>
      failure == None && n == |bytes| <= |buffer| == |before| && buffer[..n] == bytes && buffer[n..] == before[n..]
    case NoPacket => failure == None && n == 0 && buffer == before
    case TooLong(size) => failure == Some(OversizedPacket(size, |before|)) && n == 0 && buffer == before
    case Failed => failure == Some(ReadingDevice) && n == 0 && buffer == before
  }

  // --- Across calls: a queue of packets ---

  function BatchPackets(b: Batch, slots: nat, space: nat): seq<seq<byte>> {
    match b
    case Broken => []
    case Batch(packets) => if Deliverable(packets, slots, space) then packets else []
  }

  /** The packets of the batches that can be delivered, in order. */
  function Flatten(batches: seq<Batch>, slots: nat, space: nat): seq<seq<byte>> {
    if batches == [] then [] else BatchPackets(batches[0], slots, space) + Flatten(batches[1..], slots, space)
  }

  /** How many of the batches will be lost to an overflow. */
  function Overflows(batches: seq<Batch>, slots: nat, space: nat): nat {
    if batches == [] then 0
    else
      (if batches[0].Batch? && !Deliverable(batches[0].packets, slots, space) then 1 else 0)
      + Overflows(batches[1..], slots, space)
  }

  /** What is still to be read: the rest of the current batch, then everything the device can deliver. */
  function Queue(v: View, slots: nat, space: nat): seq<seq<byte>> {
    v.current + Flatten(v.batches, slots, space)
  }

  function Delivered(outcome: Outcome): seq<seq<byte>> {
    match outcome
    case Packet(bytes) => [bytes]
    case _ => []
  }

  lemma OneRead(v: View, slots: nat, space: nat, room: nat)
    ensures var step := ReadOnce(v, slots, space, room);
            && Delivered(step.outcome) + Queue(step.view, slots, space) == Queue(v, slots, space)
            && step.view.dropped + Overflows(step.view.batches, slots, space)
               == v.dropped + Overflows(v.batches, slots, space)
  {
    if v.current == [] && v.batches != [] && v.batches[0].Batch? {
      var packets := v.batches[0].packets;
      assert v.current + Flatten(v.batches, slots, space) == Flatten(v.batches, slots, space);
      if Deliverable(packets, slots, space) && packets != [] {
        var rest := Flatten(v.batches[1..], slots, space);
        assert packets == [packets[0]] + packets[1..];
        assert [packets[0]] + (packets[1..] + rest) == packets + rest;
      }
    } else if v.current != [] {
      var rest := Flatten(v.batches, slots, space);
      assert [v.current[0]] + (v.current[1..] + rest) == v.current + rest;
    }
  }

  /** The packets that a run of reads, into buffers of any sizes, hands back. */
  function ReadAll(v: View, slots: nat, space: nat, rooms: seq<nat>): (seq<seq<byte>>, View)
    decreases |rooms|
  {
    if rooms == [] then ([], v)
    else
      var step := ReadOnce(v, slots, space, rooms[0]);
      var (later, end) := ReadAll(step.view, slots, space, rooms[1..]);
      (Delivered(step.outcome) + later, end)
  }

  /** Across any calls nothing is lost, duplicated or reordered: the packets handed back, followed by
      what is still queued, are the in-order flattening of the batches that were not dropped. */
  lemma {:induction false} ReadsAreAQueue(v: View, slots: nat, space: nat, rooms: seq<nat>)
    ensures var (packets, end) := ReadAll(v, slots, space, rooms);
            && packets + Queue(end, slots, space) == Queue(v, slots, space)
            && end.dropped + Overflows(end.batches, slots, space) == v.dropped + Overflows(v.batches, slots, space)
    decreases |rooms|
  {
    hide ReadOnce, Queue, Overflows, Delivered;
    if rooms == [] {
      assert [] + Queue(v, slots, space) == Queue(v, slots, space);
    } else {
      var step := ReadOnce(v, slots, space, rooms[0]);
      OneRead(v, slots, space, rooms[0]);
      ReadsAreAQueue(step.view, slots, space, rooms[1..]);
      var (later, end) := ReadAll(step.view, slots, space, rooms[1..]);
      assert (Delivered(step.outcome) + later) + Queue(end, slots, space)
             == Delivered(step.outcome) + (later + Queue(end, slots, space));
    }
  }

  predicate Fits(v: View, space: nat) {
    forall i :: 0 <= i < |v.current| ==> |v.current[i]| <= space
  }

  lemma ReadKeepsFitting(v: View, slots: nat, space: nat, room: nat)
    requires Fits(v, space)
    ensures Fits(ReadOnce(v, slots, space, room).view, space)
    ensures room >= space ==> !ReadOnce(v, slots, space, room).outcome.TooLong?
  {
  }

  /** There is a packet to hand back without looking further than the next batch. */
  predicate AtHand(v: View, slots: nat, space: nat) {
    || v.current != []
    || (v.batches != [] && v.batches[0].Batch? && v.batches[0].packets != []
        && Deliverable(v.batches[0].packets, slots, space))
  }

  /** A read hands back the head of the queue if it fits the caller's buffer, and otherwise says how long it is and
      keeps it. */
  lemma HeadIsHandedBack(v: View, slots: nat, space: nat, room: nat)
    requires AtHand(v, slots, space)
    ensures Queue(v, slots, space) != []
    ensures var queue, step := Queue(v, slots, space), ReadOnce(v, slots, space, room);
            if |queue[0]| <= room
            then step.outcome == Packet(queue[0]) && Queue(step.view, slots, space) == queue[1..]
            else step.outcome == TooLong(|queue[0]|) && Queue(step.view, slots, space) == queue
  {
    OneRead(v, slots, space, room);
    if v.current == [] {
      assert Queue(v, slots, space) == v.batches[0].packets + Flatten(v.batches[1..], slots, space);
    }
  }

  /** Only a device that breaks, or has nothing more to give, makes a read fail; a batch that overflows the buffers is
      lost and counted, and the next read goes on behind it. */
  lemma OverflowIsRecoverable(v: View, slots: nat, space: nat, room: nat)
    ensures var step := ReadOnce(v, slots, space, room);
            && (step.outcome.Failed? <==> v.current == [] && (v.batches == [] || v.batches[0].Broken?))
            && (v.current == [] && v.batches != [] && v.batches[0].Batch?
                && !Deliverable(v.batches[0].packets, slots, space) ==>
                  step == ReadStep(NoPacket, View([], v.batches[1..], v.dropped + 1)))
  {
  }

  predicate NoneBroken(batches: seq<Batch>) {
    forall i :: 0 <= i < |batches| ==> batches[i].Batch?
  }

  /** One read takes a packet or at least a batch away. */
  lemma ReadMakesProgress(v: View, slots: nat, space: nat, room: nat)
    requires Fits(v, space) && NoneBroken(v.batches) && room >= space && (v.current != [] || v.batches != [])
    ensures var step := ReadOnce(v, slots, space, room);
            && NoneBroken(step.view.batches)
            && |step.view.batches| + |Queue(step.view, slots, space)| < |v.batches| + |Queue(v, slots, space)|
  {
    OneRead(v, slots, space, room);
    ReadKeepsFitting(v, slots, space, room);
  }

  /** Everything arrives: so many reads into buffers with room enough hand back exactly what is queued, as long as
      the device does not break. */
  lemma {:induction false} EverythingIsHandedBack(v: View, slots: nat, space: nat, rooms: seq<nat>)
    requires Fits(v, space) && NoneBroken(v.batches) && forall i :: 0 <= i < |rooms| ==> rooms[i] >= space
    requires |rooms| >= |v.batches| + |Queue(v, slots, space)|
    ensures ReadAll(v, slots, space, rooms).0 == Queue(v, slots, space)
    decreases |rooms|
  {
    hide Deliverable;
    if rooms != [] {
      var step := ReadOnce(v, slots, space, rooms[0]);
      ReadKeepsFitting(v, slots, space, rooms[0]);
      OneRead(v, slots, space, rooms[0]);
      if v.current != [] || v.batches != [] {
        ReadMakesProgress(v, slots, space, rooms[0]);
      }
      hide ReadOnce, Queue, Fits;
      EverythingIsHandedBack(step.view, slots, space, rooms[1..]);
    }
  }

  /** The buffer pumpDeviceToTunnel reads into, from the MTU the device reports. */
  function PumpRoom(reportedMTU: Option<int>): nat {
    (if reportedMTU.None? || reportedMTU.value <= 0 then DEFAULT_MTU else reportedMTU.value) + SLACK
  }

  /** What the device reports is at least what it was created with, or it reports none and the default is. */
  predicate MTUHolds(createdMTU: nat, reportedMTU: Option<int>) {
    if reportedMTU.None? || reportedMTU.value <= 0 then createdMTU <= DEFAULT_MTU else createdMTU <= reportedMTU.value
  }

  /** The outcomes of a number of reads into buffers of the same size. */
  function ReadsInto(v: View, slots: nat, space: nat, room: nat, count: nat): (outcomes: seq<Outcome>)
    ensures |outcomes| == count
    decreases count
  {
    if count == 0 then []
    else
      var step := ReadOnce(v, slots, space, room);
      [step.outcome] + ReadsInto(step.view, slots, space, room, count - 1)
  }

  predicate NoneTooLong(outcomes: seq<Outcome>) {
    forall i :: 0 <= i < |outcomes| ==> !outcomes[i].TooLong?
  }

  /** From a new adapter, whatever the kernel will hand over and however often it is read. */
  ghost predicate NeverTooLong(slots: nat, space: nat, room: nat) {
    forall batches: seq<Batch>, count: nat :: NoneTooLong(ReadsInto(View([], batches, 0), slots, space, room, count))
  }

  lemma {:induction false} RoomyReadsFit(v: View, slots: nat, space: nat, room: nat, count: nat)
    requires Fits(v, space) && room >= space
    ensures NoneTooLong(ReadsInto(v, slots, space, room, count))
    decreases count
  {
    hide ReadOnce, Fits;
    if count > 0 {
      ReadKeepsFitting(v, slots, space, room);
      RoomyReadsFit(ReadOnce(v, slots, space, room).view, slots, space, room, count - 1);
    }
  }

  /** The pump's buffer is never too small, over all reads of all devices, exactly when the device reports
      at least the MTU it was created with, or reports none and the default is enough. */
  lemma PumpBufferIsEnough(createdMTU: nat, reportedMTU: Option<int>, slots: nat)
    requires slots >= 1
    ensures NeverTooLong(slots, createdMTU + SLACK, PumpRoom(reportedMTU)) <==> MTUHolds(createdMTU, reportedMTU)
  {
    var space, room := createdMTU + SLACK, PumpRoom(reportedMTU);
    if room >= space {
      forall batches: seq<Batch>, count: nat
        ensures NoneTooLong(ReadsInto(View([], batches, 0), slots, space, room, count))
      {
        RoomyReadsFit(View([], batches, 0), slots, space, room, count);
      }
    } else {
      var packet: seq<byte> := seq(space, _ => 0);
      var v := View([], [Batch([packet])], 0);
      assert ReadOnce(v, slots, space, room).outcome == TooLong(space);
      var outcomes := ReadsInto(v, slots, space, room, 1);
      assert outcomes[0].TooLong? && !NoneTooLong(outcomes);
    }
  }

  /** Buffers for the MTU the interface is created with. */
  method Create(device: TunDevice, mtu: nat) returns (adapter: Adapter)
    ensures fresh(adapter) && adapter.Valid() && adapter.device == device
    ensures adapter.capacity - HEADROOM == mtu + SLACK
    ensures |adapter.readBufs| == if device.batchSize < 1 then 1 else device.batchSize
    ensures adapter.Abstract() == View([], device.batches, 0)
    ensures fresh(adapter.readSizes) && fresh(adapter.writeBuf)
    ensures forall i :: 0 <= i < |adapter.readBufs| ==> fresh(adapter.readBufs[i])
  {
    adapter := new Adapter(device, HEADROOM + mtu + SLACK);
  }

  datatype Pumping = Pumping(stopped: Option<Outcome>, view: View)

  /** Reads until one fails, or so many have been made. */
  function PumpedReads(v: View, slots: nat, space: nat, room: nat, count: nat): Pumping
    decreases count
  {
    if count == 0 then Pumping(None, v)
    else
      var step := ReadOnce(v, slots, space, room);
      if step.outcome.TooLong? || step.outcome.Failed? then Pumping(Some(step.outcome), step.view)
      else PumpedReads(step.view, slots, space, room, count - 1)
  }

  /** The pump stops at the first read that fails, and at no other. */
  lemma {:induction false} PumpStopsAtAFailure(v: View, slots: nat, space: nat, room: nat, count: nat)
    ensures var run, outcomes := PumpedReads(v, slots, space, room, count), ReadsInto(v, slots, space, room, count);
            && (run.stopped.None? <==> forall o :: o in outcomes ==> !o.TooLong? && !o.Failed?)
            && (run.stopped.Some? ==>
                  (run.stopped.value.TooLong? || run.stopped.value.Failed?) && run.stopped.value in outcomes)
    decreases count
  {
    hide ReadOnce;
    if count > 0 {
      var step := ReadOnce(v, slots, space, room);
      if !step.outcome.TooLong? && !step.outcome.Failed? {
        PumpStopsAtAFailure(step.view, slots, space, room, count - 1);
      } else {
        assert step.outcome in ReadsInto(v, slots, space, room, count);
      }
    }
  }

  /** The reads of pumpDeviceToTunnel on a new interface, up to the first that fails: none ever fails because
      the packet is too long for the pump's buffer. */
  method PumpReads(device: TunDevice, createdMTU: nat, reportedMTU: Option<int>, count: nat)
    returns (failure: Option<ReadFailure>)
    modifies device`batches
    ensures var slots := if device.batchSize < 1 then 1 else device.batchSize;
            var run := PumpedReads(View([], old(device.batches), 0), slots, createdMTU + SLACK,
                                   PumpRoom(reportedMTU), count);
            && (failure.None? <==> run.stopped.None?)
            && (failure == Some(ReadingDevice) <==> run.stopped == Some(Failed))
            && device.batches == run.view.batches
    ensures MTUHolds(createdMTU, reportedMTU) ==> failure.None? || failure == Some(ReadingDevice)
  {
    hide Buffered, ReadOnce;
    var adapter := Create(device, createdMTU);
    ghost var slots, space := |adapter.readBufs|, createdMTU + SLACK;
    var buffer := new byte[PumpRoom(reportedMTU)](_ => 0);
    ghost var start := adapter.Abstract();
    failure := None;
    for k := 0 to count
      invariant adapter.Valid() && adapter.device == device && buffer !in adapter.readBufs && buffer != adapter.writeBuf
      invariant adapter.capacity - HEADROOM == space && Fits(adapter.Abstract(), space)
      invariant fresh(adapter) && fresh(adapter.readSizes) && fresh(buffer)
      invariant forall i :: 0 <= i < |adapter.readBufs| ==> fresh(adapter.readBufs[i])
      invariant PumpedReads(start, slots, space, buffer.Length, count)
                == PumpedReads(adapter.Abstract(), slots, space, buffer.Length, count - k)
      invariant failure.None?
    {
      ReadKeepsFitting(adapter.Abstract(), slots, space, buffer.Length);
      var n;
      n, failure := adapter.Read(buffer);
      if failure.Some? {
        return;
      }
    }
  }
}
