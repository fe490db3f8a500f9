/**
 * The no-acknowledgement ALOHA net device as an object whose handlers update its fields in
 * place. `Abs()` reads the fields as an `AlohaSpec.Device`; every handler is proved to move that
 * value exactly as the corresponding function of `AlohaSpec` does, so the properties proved
 * there hold of the object.
 */
module AlohaDevice {
  import opened Types
  import Mac48
  import opened Headers
  import opened Classifier
  import opened AlohaSpec

  class AlohaNoackNetDevice {
    var address: Mac48.Mac48Address
    var mtu: uint16
    const capacity: nat
    var queue: seq<Packet>
    var state: State
    var currentPkt: Option<Packet>
    var scheduledStarts: nat
    var totalReceived: uint32
    var rxCallbackSet: bool
    var promiscRxCallbackSet: bool
    var trace: seq<Event>

    function Abs(): Device
      reads this
    {
      Device(address, mtu, capacity, queue, state, currentPkt, scheduledStarts,
             totalReceived, rxCallbackSet, promiscRxCallbackSet, trace)
    }

    ghost predicate Valid()
      reads this
    {
      AlohaSpec.Valid(Abs())
    }

    /** A device with the attribute defaults, IDLE, attached to an empty queue of `capacity` packets. */
    constructor (capacity: nat)
      ensures Valid() && Abs() == Initial(capacity)
    {
      address := DefaultAddress;
      mtu := DefaultMtu;
      this.capacity := capacity;
      queue := [];
      state := Idle;
      currentPkt := None;
      scheduledStarts := 0;
      totalReceived := 0;
      rxCallbackSet := false;
      promiscRxCallbackSet := false;
      trace := [];
    }

    method SetMtu(mtu: uint16) returns (ok: bool)
      modifies this`mtu
      ensures ok && GetMtu() == mtu
    {
      this.mtu := mtu;
      ok := true;
    }

    function GetMtu(): uint16
      reads this
    {
      mtu
    }

    method SetAddress(address: Mac48.Mac48Address)
      modifies this`address
      ensures GetAddress() == address
    {
      this.address := address;
    }

    function GetAddress(): Mac48.Mac48Address
      reads this
    {
      address
    }

    /** Installs (`registered`) or clears the receive callback. */
    method SetReceiveCallback(registered: bool)
      modifies this`rxCallbackSet
      ensures rxCallbackSet == registered
    {
      rxCallbackSet := registered;
    }

    /** Installs (`registered`) or clears the promiscuous receive callback. */
    method SetPromiscReceiveCallback(registered: bool)
      modifies this`promiscRxCallbackSet
      ensures promiscRxCallbackSet == registered
    {
      promiscRxCallbackSet := registered;
    }

    function IsBroadcast(): bool { true }
    function GetBroadcast(): Mac48.Mac48Address { Mac48.Broadcast }
    function IsMulticast(): bool { true }
    function IsPointToPoint(): bool { false }
    function IsBridge(): bool { false }
    function NeedsArp(): bool { true }
    function SupportsSendFrom(): bool { true }

    method GetTotalReceivedPackets() returns (n: uint32)
      ensures n == totalReceived
    {
      n := totalReceived;
    }

    /** `Queue::Enqueue` on the attached queue: fails, leaving it as it was, once it is full. */
    method Enqueue(p: Packet) returns (ok: bool)
      modifies this`queue
      ensures ok == (|old(queue)| < capacity)
      ensures queue == if ok then old(queue) + [p] else old(queue)
    {
      if |queue| < capacity {
        queue := queue + [p];
        ok := true;
      } else {
        ok := false;
      }
    }

    method StartTransmission(phyRefused: bool)
      requires Valid() && currentPkt.Some? && state == Idle
      modifies this`state, this`trace
      ensures Valid()
      ensures Abs() == AlohaSpec.StartTransmission(old(Abs()), phyRefused)
    {
      trace := trace + [PhyTxStart(currentPkt.value, phyRefused)];
      if !phyRefused {
        state := Tx;
      }
    }

    method SendFrom(packet: Packet, src: Mac48.Mac48Address, dest: Mac48.Mac48Address,
                    protocolNumber: uint16, phyRefused: bool) returns (sendOk: bool)
      requires Valid()
      modifies this
      ensures Valid()
      ensures (Abs(), sendOk) == AlohaSpec.SendFrom(old(Abs()), packet, src, dest, protocolNumber, phyRefused)
    {
      var p := AddHeader(packet, LlcSnapHeader(protocolNumber));
      p := AddHeader(p, AlohaNoackMacHeader(src, dest));
      trace := trace + [MacTx(p)];
      sendOk := true;
      if state == Idle {
        if queue == [] {
          currentPkt := Some(p);
          StartTransmission(phyRefused);
        } else {
          var enqueued := Enqueue(p);
          if !enqueued {
            trace := trace + [MacTxDrop(p)];
            sendOk := false;
          }
        }
      } else {
        var enqueued := Enqueue(p);
        if !enqueued {
          trace := trace + [MacTxDrop(p)];
          sendOk := false;
        }
      }
    }

    method Send(packet: Packet, dest: Mac48.Mac48Address, protocolNumber: uint16, phyRefused: bool)
      returns (sendOk: bool)
      requires Valid()
      modifies this
      ensures Valid()
      ensures (Abs(), sendOk) == AlohaSpec.Send(old(Abs()), packet, dest, protocolNumber, phyRefused)
    {
      sendOk := SendFrom(packet, address, dest, protocolNumber, phyRefused);
    }

    method NotifyTransmissionEnd()
      requires Valid() && state == Tx
      modifies this`state, this`queue, this`currentPkt, this`scheduledStarts
      ensures Valid()
      ensures Abs() == AlohaSpec.NotifyTransmissionEnd(old(Abs()))
    {
      state := Idle;
      if queue != [] {
        var p := queue[0];
        queue := queue[1..];
        currentPkt := Some(p);
        scheduledStarts := scheduledStarts + 1;
      }
    }

    /** The start that `NotifyTransmissionEnd` scheduled for the current instant, now running. */
    method RunScheduledStart(phyRefused: bool)
      requires Valid() && scheduledStarts > 0 && currentPkt.Some? && state == Idle
      modifies this`scheduledStarts, this`state, this`trace
      ensures Valid()
      ensures Abs() == AlohaSpec.RunScheduledStart(old(Abs()), phyRefused)
    {
      scheduledStarts := scheduledStarts - 1;
      StartTransmission(phyRefused);
    }

    method NotifyReceptionEndOk(packet: Packet)
      requires Valid() && CanReceive(Abs(), packet)
      modifies this`trace, this`totalReceived
      ensures Valid()
      ensures Abs() == AlohaSpec.NotifyReceptionEndOk(old(Abs()), packet)
    {
      var popped := RemoveHeader(packet);
      var header := popped.0;
      var p := popped.1;
      popped := RemoveHeader(p);
      var llc := popped.0;
      p := popped.1;
      var packetType := Classify(header.destination, address);
      if promiscRxCallbackSet {
        trace := trace + [PromiscReceive(p, llc.protocol, header.source, header.destination, packetType)];
      }
      if packetType != PacketOtherHost {
        trace := trace + [MacRx(p)];
        totalReceived := WrappingIncrement(totalReceived);
        trace := trace + [Receive(p, llc.protocol, header.source)];
      }
    }
  }

  /** The device's fixed answers to the link-capability queries. */
  lemma LinkCapabilities(dev: AlohaNoackNetDevice)
    ensures dev.IsBroadcast() && dev.IsMulticast() && !dev.IsPointToPoint() && !dev.IsBridge()
    ensures Mac48.IsBroadcast(dev.GetBroadcast())
  {
  }

  /** The device needs address resolution and supports sending with an explicit source. */
  lemma ArpAndSendFromSupport(dev: AlohaNoackNetDevice)
    ensures dev.NeedsArp() && dev.SupportsSendFrom()
  {
  }

  /**
   * A client: the first packet goes straight to the PHY, the second waits in the queue and is
   * started, at the same instant, once the first transmission ends.
   */
  method TwoSendsInOrder(capacity: nat, p1: Packet, p2: Packet, dst: Mac48.Mac48Address, protocol: uint16)
    requires capacity >= 1
  {
    var dev := new AlohaNoackNetDevice(capacity);
    var ok := dev.Send(p1, dst, protocol, false);
    assert ok && dev.state == Tx && dev.currentPkt == Some(Frame(p1, DefaultAddress, dst, protocol));
    ok := dev.Send(p2, dst, protocol, false);
    assert ok && dev.queue == [Frame(p2, DefaultAddress, dst, protocol)];
    dev.NotifyTransmissionEnd();
    assert dev.state == Idle && dev.scheduledStarts == 1 && dev.queue == [];
    dev.RunScheduledStart(false);
    assert dev.state == Tx && dev.currentPkt == Some(Frame(p2, DefaultAddress, dst, protocol));
  }
}
