/**
 * The no-acknowledgement ALOHA net device as a state machine over values. Each function is
 * one handler of the device and is the specification its imperative counterpart in
 * `AlohaDevice` is proved against. Everything the device makes visible to the rest of the
 * simulation (trace sources, receive callbacks, the PHY's start-transmission callback) is
 * recorded, in order, in `trace`.
 */
module AlohaSpec {
  import opened Types
  import opened Mac48
  import opened Headers
  import opened Classifier

  datatype State = Idle | Tx | Rx

  datatype Event =
    | MacTx(packet: Packet)                      // the MacTx trace source
    | MacTxDrop(packet: Packet)                  // the MacTxDrop trace source
    | PhyTxStart(packet: Packet, refused: bool)  // the PHY's start callback and its answer
    | PromiscReceive(packet: Packet, protocol: uint16, source: Mac48Address,
                     destination: Mac48Address, packetType: PacketType)  // promiscuous callback
    | MacRx(packet: Packet)                      // the MacRx trace source
    | Receive(packet: Packet, protocol: uint16, source: Mac48Address)  // receive callback

  /**
   * The device's fields. `queue` is the attached bounded FIFO of at most `capacity` packets;
   * `scheduledStarts` counts the `StartTransmission` events scheduled "now" and not yet run;
   * `rxCallbackSet` and `promiscRxCallbackSet` say whether the two receive callbacks are non-null.
   */
  datatype Device = Device(
    address: Mac48Address,
    mtu: uint16,
    capacity: nat,
    queue: seq<Packet>,
    state: State,
    currentPkt: Option<Packet>,
    scheduledStarts: nat,
    totalReceived: uint32,
    rxCallbackSet: bool,
    promiscRxCallbackSet: bool,
    trace: seq<Event>)

  /** The `Address` attribute's default, 12:34:56:78:90:12. */
  const DefaultAddress: Mac48Address := [0x12, 0x34, 0x56, 0x78, 0x90, 0x12]

  /** The `Mtu` attribute's default. */
  const DefaultMtu: uint16 := 1500

  /**
   * What every reachable device satisfies: the queue respects its bound, the RX state is never
   * entered, and a scheduled start always has a current packet to transmit.
   */
  predicate Valid(d: Device) {
    && |d.queue| <= d.capacity
    && d.state != Rx
    && (d.scheduledStarts > 0 ==> d.currentPkt.Some?)
  }

  /** A freshly created device with an empty queue of the given capacity. */
  function Initial(capacity: nat): (d: Device)
    ensures Valid(d)
    ensures d.state == Idle && d.queue == [] && d.currentPkt == None && d.scheduledStarts == 0
    ensures d.totalReceived == 0 && d.trace == [] && d.address == DefaultAddress && d.mtu == DefaultMtu
  {
    Device(DefaultAddress, DefaultMtu, capacity, [], Idle, None, 0, 0, false, false, [])
  }

  /** `Queue::Enqueue`: succeeds, appending at the back, exactly when the queue is below capacity. */
  function Enqueue(d: Device, p: Packet): (r: (Device, bool))
  {
    if |d.queue| < d.capacity then (d.(queue := d.queue + [p]), true) else (d, false)
  }

  /**
   * `StartTransmission`: hands the current packet to the PHY. The PHY's answer is inverted:
   * `phyRefused` true means it declined, and the device then stays IDLE.
   */
  function StartTransmission(d: Device, phyRefused: bool): (r: Device)
    requires d.currentPkt.Some? && d.state == Idle
    ensures r.state == (if phyRefused then Idle else Tx)
    ensures r.trace == d.trace + [PhyTxStart(d.currentPkt.value, phyRefused)]
    ensures r.queue == d.queue && r.currentPkt == d.currentPkt
    ensures r == d.(state := r.state, trace := r.trace)
    ensures Valid(d) ==> Valid(r)
  {
    var t := d.trace + [PhyTxStart(d.currentPkt.value, phyRefused)];
    if phyRefused then d.(trace := t) else d.(state := Tx, trace := t)
  }

  /**
   * `SendFrom`: frames the packet (LLC header, then MAC header) and either starts transmitting
   * it at once (IDLE with an empty queue) or enqueues it. `phyRefused` is the PHY's answer if it
   * is asked. The boolean is the value returned to the caller.
   */
  function SendFrom(d: Device, packet: Packet, src: Mac48Address, dst: Mac48Address,
                    protocol: uint16, phyRefused: bool): (r: (Device, bool))
    ensures var framed := Frame(packet, src, dst, protocol);
      && |r.0.trace| > |d.trace|
      && r.0.trace[..|d.trace|] == d.trace
      && r.0.trace[|d.trace|] == MacTx(framed)
      && (d.state == Idle && d.queue == [] ==>
            && r.1
            && r.0.currentPkt == Some(framed)
            && r.0.queue == d.queue
            && r.0.state == (if phyRefused then Idle else Tx)
            && r.0.trace == d.trace + [MacTx(framed), PhyTxStart(framed, phyRefused)])
      && (!(d.state == Idle && d.queue == []) ==>
            && (r.1 <==> |d.queue| < d.capacity)
            && r.0.queue == (if r.1 then d.queue + [framed] else d.queue)
            && r.0.state == d.state
            && r.0.currentPkt == d.currentPkt
            && r.0.trace == d.trace + [MacTx(framed)] + (if r.1 then [] else [MacTxDrop(framed)]))
    ensures r.0.scheduledStarts == d.scheduledStarts && r.0.totalReceived == d.totalReceived
    ensures r.0.address == d.address && r.0.capacity == d.capacity
    ensures r.0 == d.(queue := r.0.queue, state := r.0.state, currentPkt := r.0.currentPkt,
                      trace := r.0.trace)
    ensures Valid(d) ==> Valid(r.0)
  {
    var framed := Frame(packet, src, dst, protocol);
    var d1 := d.(trace := d.trace + [MacTx(framed)]);
    if d.state == Idle && d.queue == [] then
      (StartTransmission(d1.(currentPkt := Some(framed)), phyRefused), true)
    else
      var (d2, ok) := Enqueue(d1, framed);
      if ok then (d2, true) else (d2.(trace := d2.trace + [MacTxDrop(framed)]), false)
  }

  /** `Send`: `SendFrom` with the device's own address as the source. */
  function Send(d: Device, packet: Packet, dst: Mac48Address, protocol: uint16,
                phyRefused: bool): (r: (Device, bool))
    ensures r == SendFrom(d, packet, d.address, dst, protocol, phyRefused)
    ensures r.0.trace[|d.trace|] == MacTx(Frame(packet, d.address, dst, protocol))
  {
    SendFrom(d, packet, d.address, dst, protocol, phyRefused)
  }

  /**
   * `NotifyTransmissionEnd`: back to IDLE; if packets are waiting, the head one becomes the
   * current packet and a start is scheduled for the same instant. The current packet is not
   * cleared when the queue is empty.
   */
  function NotifyTransmissionEnd(d: Device): (r: Device)
    requires d.state == Tx
    ensures r.state == Idle
    ensures d.queue != [] ==>
      && r.currentPkt == Some(d.queue[0])
      && r.queue == d.queue[1..]
      && r.scheduledStarts == d.scheduledStarts + 1
    ensures d.queue == [] ==>
      && r.currentPkt == d.currentPkt
      && r.queue == d.queue
      && r.scheduledStarts == d.scheduledStarts
    ensures r == d.(state := Idle, queue := r.queue, currentPkt := r.currentPkt,
                    scheduledStarts := r.scheduledStarts)
    ensures Valid(d) ==> Valid(r)
  {
    var idle := d.(state := Idle);
    if d.queue != [] then
      idle.(queue := d.queue[1..], currentPkt := Some(d.queue[0]),
            scheduledStarts := d.scheduledStarts + 1)
    else
      idle
  }

  /**
   * The scheduled `StartTransmission` event firing. Its assertions demand a current packet and
   * the IDLE state; a `Send` that started a transmission in between breaks the second.
   */
  function RunScheduledStart(d: Device, phyRefused: bool): (r: Device)
    requires d.scheduledStarts > 0 && d.currentPkt.Some? && d.state == Idle
    ensures r.scheduledStarts == d.scheduledStarts - 1
    ensures r.state == (if phyRefused then Idle else Tx)
    ensures r.trace == d.trace + [PhyTxStart(d.currentPkt.value, phyRefused)]
    ensures r.queue == d.queue && r.currentPkt == d.currentPkt
    ensures r == d.(scheduledStarts := r.scheduledStarts, state := r.state, trace := r.trace)
    ensures Valid(d) ==> Valid(r)
  {
    StartTransmission(d.(scheduledStarts := d.scheduledStarts - 1), phyRefused)
  }

  /**
   * `NotifyReceptionEndOk` may run: the frame carries the two headers, and when the frame is
   * for this device the receive callback, which the handler calls without a null check, is set.
   */
  predicate CanReceive(d: Device, packet: Packet) {
    && Framed(packet)
    && (Classify(Unframe(packet).destination, d.address) != PacketOtherHost ==> d.rxCallbackSet)
  }

  /**
   * `NotifyReceptionEndOk`: removes the MAC and LLC headers, classifies the destination and
   * delivers: promiscuously always (if a callback is set), through the filtered path only when
   * the frame is not for another host, counting those frames.
   */
  function NotifyReceptionEndOk(d: Device, packet: Packet): (r: Device)
    requires CanReceive(d, packet)
    ensures var u := Unframe(packet);
      var kind := Classify(u.destination, d.address);
      var promisc := if d.promiscRxCallbackSet
        then [PromiscReceive(u.inner, u.protocol, u.source, u.destination, kind)] else [];
      && (kind != PacketOtherHost ==>
            && r.totalReceived == WrappingIncrement(d.totalReceived)
            && r.trace == d.trace + promisc + [MacRx(u.inner), Receive(u.inner, u.protocol, u.source)])
      && (kind == PacketOtherHost ==>
            && r.totalReceived == d.totalReceived
            && r.trace == d.trace + promisc)
    ensures r == d.(totalReceived := r.totalReceived, trace := r.trace)
  {
    var (mac, afterMac) := RemoveHeader(packet);
    var (llc, inner) := RemoveHeader(afterMac);
    var kind := Classify(mac.destination, d.address);
    var t := if d.promiscRxCallbackSet
      then d.trace + [PromiscReceive(inner, llc.protocol, mac.source, mac.destination, kind)]
      else d.trace;
    if kind != PacketOtherHost then
      d.(trace := t + [MacRx(inner), Receive(inner, llc.protocol, mac.source)],
         totalReceived := WrappingIncrement(d.totalReceived))
    else
      d.(trace := t)
  }
}
