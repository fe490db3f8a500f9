/**
 * Behaviour the device's code has and a reader might not expect, stated as lemmas over the
 * specification, together with the end-to-end header round trip between two devices.
 */
module AlohaQuirks {
  import opened Types
  import opened Mac48
  import opened Headers
  import opened Classifier
  import opened AlohaSpec
  import opened AlohaFifo

  /**
   * What one device puts on the air, when received by another, comes up with exactly the
   * payload, protocol number, source and destination the sender pushed.
   */
  lemma SentFrameDeliversHeaders(tx: Device, rx: Device, packet: Packet, dst: Mac48Address, protocol: uint16)
    requires tx.state == Idle && tx.queue == []
    requires rx.promiscRxCallbackSet && rx.rxCallbackSet
    ensures var sent := Send(tx, packet, dst, protocol, false).0;
      var onAir := sent.trace[|sent.trace| - 1].packet;
      && sent.trace[|sent.trace| - 1] == PhyTxStart(onAir, false)
      && CanReceive(rx, onAir)
      && NotifyReceptionEndOk(rx, onAir).trace[|rx.trace|]
           == PromiscReceive(packet, protocol, tx.address, dst, Classify(dst, rx.address))
  {
    UnframeFrame(packet, tx.address, dst, protocol);
  }

  /** A frame not addressed to the receiver reaches only the promiscuous path and is not counted. */
  lemma OtherHostFrameNotCounted(rx: Device, packet: Packet, src: Mac48Address, dst: Mac48Address, protocol: uint16)
    requires !IsGroup(dst) && dst != rx.address
    ensures CanReceive(rx, Frame(packet, src, dst, protocol))
    ensures var r := NotifyReceptionEndOk(rx, Frame(packet, src, dst, protocol));
      && r.totalReceived == rx.totalReceived
      && (forall k :: |rx.trace| <= k < |r.trace| ==> r.trace[k].PromiscReceive?)
  {
    UnframeFrame(packet, src, dst, protocol);
  }

  /** A broadcast frame reaches the filtered path and is counted, whatever the receiver's address. */
  lemma BroadcastFrameCounted(rx: Device, packet: Packet, src: Mac48Address, protocol: uint16)
    requires rx.rxCallbackSet
    ensures CanReceive(rx, Frame(packet, src, Broadcast, protocol))
    ensures var r := NotifyReceptionEndOk(rx, Frame(packet, src, Broadcast, protocol));
      && r.totalReceived == WrappingIncrement(rx.totalReceived)
      && r.trace[|r.trace| - 1] == Receive(packet, protocol, src)
  {
    UnframeFrame(packet, src, Broadcast, protocol);
  }

  /**
   * The current packet is not cleared when a transmission ends with nothing queued: an IDLE
   * device can hold a current packet, so "current packet set exactly while TX" does not hold.
   */
  lemma CurrentPacketOutlivesTransmission(capacity: nat, p: Packet, dst: Mac48Address, protocol: uint16)
    ensures var d0 := Initial(capacity);
      var ins := [SendFromIn(p, d0.address, dst, protocol, false), TransmissionEndIn];
      && OrderlyRun(d0, ins)
      && Run(d0, ins).state == Idle
      && Run(d0, ins).currentPkt == Some(Frame(p, d0.address, dst, protocol))
  {
    var d0 := Initial(capacity);
    var ins := [SendFromIn(p, d0.address, dst, protocol, false), TransmissionEndIn];
    var d1 := Step(d0, ins[0]);
    assert ins[1..] == [TransmissionEndIn] && ins[1..][1..] == [];
    assert Run(d0, ins) == Run(d1, [TransmissionEndIn]);
  }

  /**
   * A `Send` between the end of a transmission and the start it scheduled, with the queue now
   * empty, overwrites the dequeued current packet and starts at once; when the PHY accepts the
   * send, the scheduled start then finds the device in TX, so its assertion cannot hold.
   */
  lemma SendRacesScheduledStart(d: Device, p: Packet, src: Mac48Address, dst: Mac48Address,
                                protocol: uint16, refused: bool)
    requires Valid(d) && d.state == Idle && d.scheduledStarts > 0 && d.queue == []
    ensures var r := SendFrom(d, p, src, dst, protocol, false).0;
      && r.state == Tx
      && r.scheduledStarts == d.scheduledStarts
      && r.currentPkt == Some(Frame(p, src, dst, protocol))
      && !Enabled(r, ScheduledStartIn(refused))
  {
  }

  /**
   * The same race when the PHY refuses the send: the device stays IDLE, so the scheduled start
   * may run, and it offers the new frame a second time. The dequeued packet the start was
   * scheduled to transmit stays admitted but is never offered and no longer pending: it is
   * silently lost.
   */
  lemma RefusedSendRacesScheduledStart(d: Device, p: Packet, src: Mac48Address, dst: Mac48Address,
                                       protocol: uint16, startRefused: bool)
    requires FifoInvariant(d) && d.state == Idle && d.scheduledStarts > 0 && d.queue == []
    ensures var framed := Frame(p, src, dst, protocol);
      var r := SendFrom(d, p, src, dst, protocol, true).0;
      && r.state == Idle
      && r.currentPkt == Some(framed)
      && Enabled(r, ScheduledStartIn(startRefused))
      && var s := RunScheduledStart(r, startRefused);
         && Admitted(s.trace) == Offered(d.trace) + [d.currentPkt.value, framed]
         && Offered(s.trace) == Offered(d.trace) + [framed, framed]
         && Pending(s) == []
  {
    var framed := Frame(p, src, dst, protocol);
    var r := SendFrom(d, p, src, dst, protocol, true).0;
    var s := RunScheduledStart(r, startRefused);
    var chunk := [MacTx(framed), PhyTxStart(framed, true), PhyTxStart(framed, startRefused)];
    assert s.trace == d.trace + chunk;
    AdmittedAppend(d.trace, chunk);
    OfferedAppend(d.trace, chunk);
    assert chunk[1..] == [PhyTxStart(framed, true), PhyTxStart(framed, startRefused)];
    assert chunk[1..][1..] == [PhyTxStart(framed, startRefused)];
    assert chunk[1..][1..][1..] == [];
    assert Offered(chunk[1..][1..]) == [framed] && Admitted(chunk[1..][1..]) == [];
    assert Offered(chunk[1..]) == [framed, framed] && Admitted(chunk[1..]) == [];
    assert Offered(chunk) == [framed, framed] && Admitted(chunk) == [framed];
    assert Pending(d) == [d.currentPkt.value];
  }

  /** The situation above is reachable from a fresh device through handlers that all may run. */
  lemma RaceReachable(capacity: nat, p1: Packet, p2: Packet, dst: Mac48Address, protocol: uint16)
    requires capacity >= 1
    ensures var d0 := Initial(capacity);
      var ins := [SendFromIn(p1, d0.address, dst, protocol, false),
                  SendFromIn(p2, d0.address, dst, protocol, false),
                  TransmissionEndIn];
      && OrderlyRun(d0, ins)
      && var d := Run(d0, ins);
         d.state == Idle && d.scheduledStarts == 1 && d.queue == []
  {
    var d0 := Initial(capacity);
    var ins := [SendFromIn(p1, d0.address, dst, protocol, false),
                SendFromIn(p2, d0.address, dst, protocol, false),
                TransmissionEndIn];
    var d1 := Step(d0, ins[0]);
    var d2 := Step(d1, ins[1]);
    assert ins[1..] == [ins[1], ins[2]];
    assert ins[1..][1..] == [TransmissionEndIn] && ins[1..][1..][1..] == [];
    assert d1.state == Tx && d1.queue == [] && d1.scheduledStarts == 0;
    assert d2.state == Tx && |d2.queue| == 1;
    assert OrderlyRun(Step(d2, TransmissionEndIn), []);
    assert OrderlyRun(d2, ins[1..][1..]);
    assert OrderlyRun(d1, ins[1..]);
    var d3 := Step(d2, TransmissionEndIn);
    assert Run(d3, []) == d3;
    assert Run(d2, ins[1..][1..]) == d3;
    assert Run(d1, ins[1..]) == d3;
  }

  /**
   * After the PHY refuses a scheduled start with packets still queued, the device is IDLE with
   * a non-empty queue and nothing scheduled. From there `Send` only ever enqueues: no further
   * transmission is started, however many packets arrive.
   */
  lemma {:induction false} StalledQueueNeverDrains(d: Device, ins: seq<Input>)
    requires Valid(d) && d.state == Idle && d.queue != [] && d.scheduledStarts == 0
    requires forall k :: 0 <= k < |ins| ==> ins[k].SendFromIn?
    ensures OrderlyRun(d, ins)
    ensures var r := Run(d, ins);
      && r.state == Idle && r.scheduledStarts == 0
      && |r.queue| >= |d.queue| && r.queue[..|d.queue|] == d.queue
      && Offered(r.trace) == Offered(d.trace)
    decreases |ins|
  {
    if ins != [] {
      var i := ins[0];
      var (d1, ok) := SendFrom(d, i.packet, i.src, i.dst, i.protocol, i.phyRefused);
      var framed := Frame(i.packet, i.src, i.dst, i.protocol);
      var chunk := d1.trace[|d.trace|..];
      assert d1.trace == d.trace + chunk;
      OfferedAppend(d.trace, chunk);
      TransmitChunks(framed, i.phyRefused);
      assert chunk == if ok then [MacTx(framed)] else [MacTx(framed), MacTxDrop(framed)];
      assert d1.queue[..|d.queue|] == d.queue;
      StalledQueueNeverDrains(d1, ins[1..]);
    }
  }

  /** The stalled situation is reachable: a refused scheduled start with a packet left queued. */
  lemma StallReachable(capacity: nat, p1: Packet, p2: Packet, p3: Packet, dst: Mac48Address, protocol: uint16)
    requires capacity >= 2
    ensures var d0 := Initial(capacity);
      var d1 := Send(d0, p1, dst, protocol, false).0;
      var d2 := Send(d1, p2, dst, protocol, false).0;
      var d3 := Send(d2, p3, dst, protocol, false).0;
      var d4 := NotifyTransmissionEnd(d3);
      && d4.scheduledStarts == 1 && d4.state == Idle
      && var d5 := RunScheduledStart(d4, true);
         d5.state == Idle && d5.scheduledStarts == 0 && d5.queue == [Frame(p3, d0.address, dst, protocol)]
  {
  }
}
