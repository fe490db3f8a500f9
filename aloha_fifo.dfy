/**
 * Multi-step properties of the device: runs of handler invocations, the order in which
 * admitted packets reach the PHY, and the receive path applied to what the send path framed.
 */
module AlohaFifo {
  import opened Types
  import opened Mac48
  import opened Headers
  import opened Classifier
  import opened AlohaSpec

  /** One handler invocation, with the PHY's answer where the handler asks the PHY. */
  datatype Input =
    | SendFromIn(packet: Packet, src: Mac48Address, dst: Mac48Address, protocol: uint16, phyRefused: bool)
    | TransmissionEndIn
    | ScheduledStartIn(phyRefused: bool)
    | ReceptionEndOkIn(packet: Packet)

  /** The handler's own assertions hold, so it may run. */
  predicate Enabled(d: Device, i: Input) {
    match i
    case SendFromIn(_, _, _, _, _) => true
    case TransmissionEndIn => d.state == Tx
    case ScheduledStartIn(_) => d.scheduledStarts > 0 && d.currentPkt.Some? && d.state == Idle
    case ReceptionEndOkIn(p) => CanReceive(d, p)
  }

  function Step(d: Device, i: Input): Device
    requires Enabled(d, i)
  {
    match i
    case SendFromIn(p, s, t, proto, refused) => SendFrom(d, p, s, t, proto, refused).0
    case TransmissionEndIn => NotifyTransmissionEnd(d)
    case ScheduledStartIn(refused) => RunScheduledStart(d, refused)
    case ReceptionEndOkIn(p) => NotifyReceptionEndOk(d, p)
  }

  /**
   * The condition under which transmission order is promised: no `Send` finds the queue empty
   * while a start scheduled for the current instant has not yet run (the send would overwrite
   * the packet that start is about to transmit). The PHY may refuse at any time.
   */
  predicate Orderly(d: Device, i: Input) {
    i.SendFromIn? ==> d.scheduledStarts == 0 || d.queue != []
  }

  predicate OrderlyRun(d: Device, ins: seq<Input>)
    decreases |ins|
  {
    ins == [] || (Enabled(d, ins[0]) && Orderly(d, ins[0]) && OrderlyRun(Step(d, ins[0]), ins[1..]))
  }

  function Run(d: Device, ins: seq<Input>): Device
    requires OrderlyRun(d, ins)
    decreases |ins|
  {
    if ins == [] then d else Run(Step(d, ins[0]), ins[1..])
  }

  /** The packets the device accepted for transmission: each `MacTx` not followed by `MacTxDrop`. */
  function Admitted(t: seq<Event>): seq<Packet>
    decreases |t|
  {
    if t == [] then []
    else if t[0].MacTx? && (|t| == 1 || !t[1].MacTxDrop?) then [t[0].packet] + Admitted(t[1..])
    else Admitted(t[1..])
  }

  /**
   * The packets handed to the PHY's start callback, in order, whether or not the PHY refused
   * them.
   */
  function Offered(t: seq<Event>): seq<Packet>
    decreases |t|
  {
    if t == [] then []
    else if t[0].PhyTxStart? then [t[0].packet] + Offered(t[1..])
    else Offered(t[1..])
  }

  /** The packets the PHY accepted for transmission, in order: `Offered` less the refused ones. */
  function Transmitted(t: seq<Event>): seq<Packet>
    decreases |t|
  {
    if t == [] then []
    else if t[0].PhyTxStart? && !t[0].refused then [t[0].packet] + Transmitted(t[1..])
    else Transmitted(t[1..])
  }

  /** `a` is `b` with some elements left out, the rest kept in their order. */
  predicate Subsequence<T(==)>(a: seq<T>, b: seq<T>)
    decreases |b|
  {
    || a == []
    || (&& b != []
        && if a[0] == b[0] then Subsequence(a[1..], b[1..]) else Subsequence(a, b[1..]))
  }

  lemma {:induction false} SubsequenceCons<T>(a: seq<T>, b: seq<T>, x: T)
    requires Subsequence(a, b)
    ensures Subsequence(a, [x] + b)
    decreases |a| + |b|, 1
  {
    assert ([x] + b)[1..] == b;
    if a != [] && a[0] == x {
      SubsequenceTail(a, b);
    }
  }

  lemma {:induction false} SubsequenceTail<T>(a: seq<T>, b: seq<T>)
    requires a != [] && Subsequence(a, b)
    ensures Subsequence(a[1..], b)
    decreases |a| + |b|, 0
  {
    assert b == [b[0]] + b[1..];
    if a[0] == b[0] {
      SubsequenceCons(a[1..], b[1..], b[0]);
    } else {
      SubsequenceTail(a, b[1..]);
      SubsequenceCons(a[1..], b[1..], b[0]);
    }
  }

  lemma {:induction false} SubsequenceAppend<T>(a: seq<T>, b: seq<T>, c: seq<T>)
    requires Subsequence(a, b)
    ensures Subsequence(a, b + c)
    decreases |b|
  {
    if a != [] {
      assert (b + c)[0] == b[0] && (b + c)[1..] == b[1..] + c;
      if a[0] == b[0] {
        SubsequenceAppend(a[1..], b[1..], c);
      } else {
        SubsequenceAppend(a, b[1..], c);
      }
    }
  }

  /** What the PHY accepted is what it was offered, less the refusals, in the same order. */
  lemma {:induction false} TransmittedOfOffered(t: seq<Event>)
    ensures Subsequence(Transmitted(t), Offered(t))
    decreases |t|
  {
    if t != [] {
      TransmittedOfOffered(t[1..]);
      if t[0].PhyTxStart? && t[0].refused {
        SubsequenceCons(Transmitted(t[1..]), Offered(t[1..]), t[0].packet);
      }
    }
  }

  /** Packets admitted and not yet handed to the PHY: the one a scheduled start will send, then the queue. */
  function Pending(d: Device): seq<Packet> {
    (if d.scheduledStarts > 0 && d.currentPkt.Some? then [d.currentPkt.value] else []) + d.queue
  }

  lemma {:induction false} AdmittedAppend(t: seq<Event>, u: seq<Event>)
    requires u == [] || !u[0].MacTxDrop?
    ensures Admitted(t + u) == Admitted(t) + Admitted(u)
    decreases |t|
  {
    if t == [] {
      assert t + u == u;
    } else {
      assert (t + u)[0] == t[0];
      assert (t + u)[1..] == t[1..] + u;
      AdmittedAppend(t[1..], u);
    }
  }

  lemma {:induction false} OfferedAppend(t: seq<Event>, u: seq<Event>)
    ensures Offered(t + u) == Offered(t) + Offered(u)
    decreases |t|
  {
    if t == [] {
      assert t + u == u;
    } else {
      assert (t + u)[0] == t[0];
      assert (t + u)[1..] == t[1..] + u;
      OfferedAppend(t[1..], u);
    }
  }

  /**
   * The invariant behind in-order transmission: everything admitted so far is what has been
   * offered to the PHY, followed by what is still pending, in that order.
   */
  predicate FifoInvariant(d: Device) {
    && Valid(d)
    && d.scheduledStarts <= 1
    && (d.scheduledStarts == 1 ==> d.state == Idle)
    && Admitted(d.trace) == Offered(d.trace) + Pending(d)
  }

  /** What the short event sequences the transmit handlers append admit and offer. */
  lemma TransmitChunks(p: Packet, refused: bool)
    ensures Admitted([MacTx(p)]) == [p] && Offered([MacTx(p)]) == []
    ensures Admitted([MacTx(p), MacTxDrop(p)]) == [] && Offered([MacTx(p), MacTxDrop(p)]) == []
    ensures Admitted([MacTx(p), PhyTxStart(p, refused)]) == [p]
    ensures Offered([MacTx(p), PhyTxStart(p, refused)]) == [p]
    ensures Admitted([PhyTxStart(p, refused)]) == [] && Offered([PhyTxStart(p, refused)]) == [p]
  {
    assert [MacTx(p)][1..] == [];
    assert [MacTx(p), MacTxDrop(p)][1..] == [MacTxDrop(p)];
    assert [MacTxDrop(p)][1..] == [];
    assert Admitted([MacTxDrop(p)]) == [] && Offered([MacTxDrop(p)]) == [];
    assert [MacTx(p), PhyTxStart(p, refused)][1..] == [PhyTxStart(p, refused)];
    assert [PhyTxStart(p, refused)][1..] == [];
  }

  /** How the admitted/offered/pending split moves across one `SendFrom` that appended `chunk`. */
  lemma SendChunkKeepsFifo(d: Device, r: Device, chunk: seq<Event>, framed: Packet, refused: bool)
    requires FifoInvariant(d) && Valid(r)
    requires r.trace == d.trace + chunk
    requires || (chunk == [MacTx(framed), PhyTxStart(framed, refused)] && Pending(r) == Pending(d) == [])
             || (chunk == [MacTx(framed)] && Pending(r) == Pending(d) + [framed])
             || (chunk == [MacTx(framed), MacTxDrop(framed)] && Pending(r) == Pending(d))
    ensures Admitted(r.trace) == Offered(r.trace) + Pending(r)
  {
    AdmittedAppend(d.trace, chunk);
    OfferedAppend(d.trace, chunk);
    TransmitChunks(framed, refused);
    if chunk == [MacTx(framed)] {
      assert Admitted(r.trace) == Offered(d.trace) + Pending(d) + [framed];
    }
  }

  lemma SendKeepsFifo(d: Device, i: Input)
    requires i.SendFromIn? && FifoInvariant(d) && Enabled(d, i) && Orderly(d, i)
    ensures FifoInvariant(Step(d, i))
  {
    var framed := Frame(i.packet, i.src, i.dst, i.protocol);
    var (r, ok) := SendFrom(d, i.packet, i.src, i.dst, i.protocol, i.phyRefused);
    if d.state == Idle && d.queue == [] {
      assert r.trace == d.trace + [MacTx(framed), PhyTxStart(framed, i.phyRefused)];
      assert Pending(d) == [] && Pending(r) == [];
      SendChunkKeepsFifo(d, r, [MacTx(framed), PhyTxStart(framed, i.phyRefused)], framed, i.phyRefused);
    } else if ok {
      assert r.trace == d.trace + [MacTx(framed)];
      assert Pending(r) == Pending(d) + [framed];
      SendChunkKeepsFifo(d, r, [MacTx(framed)], framed, false);
    } else {
      assert r.trace == d.trace + [MacTx(framed), MacTxDrop(framed)];
      SendChunkKeepsFifo(d, r, [MacTx(framed), MacTxDrop(framed)], framed, false);
    }
  }

  lemma TransmissionEndKeepsFifo(d: Device)
    requires FifoInvariant(d) && d.state == Tx
    ensures FifoInvariant(NotifyTransmissionEnd(d))
  {
    var r := NotifyTransmissionEnd(d);
    if d.queue != [] {
      assert Pending(r) == [d.queue[0]] + d.queue[1..];
    }
  }

  lemma ScheduledStartKeepsFifo(d: Device, refused: bool)
    requires FifoInvariant(d) && Enabled(d, ScheduledStartIn(refused))
    ensures FifoInvariant(RunScheduledStart(d, refused))
  {
    var r := RunScheduledStart(d, refused);
    var chunk := [PhyTxStart(d.currentPkt.value, refused)];
    assert r.trace == d.trace + chunk;
    AdmittedAppend(d.trace, chunk);
    OfferedAppend(d.trace, chunk);
    TransmitChunks(d.currentPkt.value, refused);
  }

  lemma ReceiveKeepsFifo(d: Device, p: Packet)
    requires FifoInvariant(d) && CanReceive(d, p)
    ensures FifoInvariant(NotifyReceptionEndOk(d, p))
  {
    var r := NotifyReceptionEndOk(d, p);
    var u := Unframe(p);
    var kind := Classify(u.destination, d.address);
    var promisc := if d.promiscRxCallbackSet
      then [PromiscReceive(u.inner, u.protocol, u.source, u.destination, kind)] else [];
    var chunk := promisc + (if kind != PacketOtherHost
      then [MacRx(u.inner), Receive(u.inner, u.protocol, u.source)] else []);
    assert r.trace == d.trace + chunk;
    assert r == d.(totalReceived := r.totalReceived, trace := r.trace);
    assert Pending(r) == Pending(d);
    assert chunk == [] || !chunk[0].MacTxDrop?;
    AdmittedAppend(d.trace, chunk);
    OfferedAppend(d.trace, chunk);
    ReceiveChunkInert(chunk);
  }

  lemma StepKeepsFifo(d: Device, i: Input)
    requires FifoInvariant(d) && Enabled(d, i) && Orderly(d, i)
    ensures FifoInvariant(Step(d, i))
  {
    match i
    case SendFromIn(_, _, _, _, _) => SendKeepsFifo(d, i);
    case TransmissionEndIn => TransmissionEndKeepsFifo(d);
    case ScheduledStartIn(refused) => ScheduledStartKeepsFifo(d, refused);
    case ReceptionEndOkIn(p) => ReceiveKeepsFifo(d, p);
  }

  /** Receive-path events neither admit nor offer anything. */
  lemma {:induction false} ReceiveChunkInert(chunk: seq<Event>)
    requires forall k :: 0 <= k < |chunk| ==> !chunk[k].MacTx? && !chunk[k].PhyTxStart?
    ensures Admitted(chunk) == [] && Offered(chunk) == []
    decreases |chunk|
  {
    if chunk != [] {
      ReceiveChunkInert(chunk[1..]);
    }
  }

  lemma {:induction false} RunKeepsFifo(d: Device, ins: seq<Input>)
    requires FifoInvariant(d) && OrderlyRun(d, ins)
    ensures FifoInvariant(Run(d, ins))
    decreases |ins|
  {
    if ins != [] {
      StepKeepsFifo(d, ins[0]);
      RunKeepsFifo(Step(d, ins[0]), ins[1..]);
    }
  }

  /**
   * FIFO transmission: from a fresh device, over any orderly run, the packets offered to the PHY
   * are a prefix of the packets admitted, in the same order and each once, and the rest are
   * still pending. A packet the PHY refuses is not offered again, so the packets transmitted
   * are the admitted ones less the refused ones, in admission order.
   */
  lemma FifoFromInitial(capacity: nat, ins: seq<Input>)
    requires OrderlyRun(Initial(capacity), ins)
    ensures var d := Run(Initial(capacity), ins);
      && Offered(d.trace) <= Admitted(d.trace)
      && Admitted(d.trace)[|Offered(d.trace)|..] == Pending(d)
      && Subsequence(Transmitted(d.trace), Admitted(d.trace))
  {
    var d0 := Initial(capacity);
    assert Pending(d0) == [];
    RunKeepsFifo(d0, ins);
    var d := Run(d0, ins);
    TransmittedOfOffered(d.trace);
    SubsequenceAppend(Transmitted(d.trace), Offered(d.trace), Pending(d));
  }
}
