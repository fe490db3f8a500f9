# ALOHA no-acknowledgement net device, modelled in Dafny

This project models the MAC layer of ns-3's `AlohaNoackCognitiveNetDevice`
(`cognitive-radio/model/aloha-noack-cognitive-net-device.cc`). That device sends without
sensing the channel and expects no acknowledgement. It keeps a small state machine (IDLE, TX, RX)
and a current packet. It also owns a bounded FIFO queue of framed packets and a counter of
packets it delivered up the stack.

- Sending: `Send`/`SendFrom` push an LLC/SNAP header carrying the protocol number and then an
  ALOHA MAC header carrying source and destination. The framed packet goes straight to the PHY
  when the device is IDLE with an empty queue. Otherwise it is enqueued, and a full queue drops
  it and returns `false`.
- PHY handshake: `StartTransmission` asks the PHY's start callback, whose answer is inverted
  (`true` means refused). `NotifyTransmissionEnd` returns to IDLE, dequeues the next packet and
  schedules a start for the same simulated instant.
- Receiving: `NotifyReceptionEndOk` pops the MAC header and then the LLC header. It classifies
  the destination as broadcast, multicast, this host or another host. Every frame goes to the
  promiscuous callback. Frames not for another host also go to the MacRx trace and the receive
  callback, and they increment the `uint32` received-packet counter.

Layout:

- `types.dfy`: `uint16`, `uint32` with wrap-around increment, `Option`.
- `mac48.dfy`: 48-bit addresses, `IsBroadcast` and `IsGroup` as ns-3's `Mac48Address` defines them.
- `headers.dfy`: packets as a stack of headers over a payload, `AddHeader`/`RemoveHeader`, and
  framing and unframing.
- `classifier.dfy`: the ordered destination classification.
- `aloha_spec.dfy`: the device as a value (`Device`) and one function per handler. This is the
  specification. Everything observable (trace sources, callbacks, calls to the PHY) is appended
  to `trace`.
- `aloha_device.dfy`: the device as a class whose methods update its fields in place. Each handler
  is proved to change `Abs()` exactly as its specification function does.
- `aloha_fifo.dfy`: runs of handler invocations and the proof that packets reach the PHY in the
  order they were admitted.
- `aloha_quirks.dfy`: the header round trip between two devices, and lemmas for behaviour the
  code has that a reader may not expect.

External collaborators are inputs. The PHY's answer to a start request is the `phyRefused`
parameter. Whether each receive callback is registered is a boolean field. A start that the
simulator has scheduled for "now" but not yet run is counted in `scheduledStarts` and runs
through `RunScheduledStart`.

Where a reader might expect otherwise, the model follows the code:

- The current packet is not cleared when a transmission ends. "Current packet set exactly while
  TX" is therefore false, and `AlohaQuirks.CurrentPacketOutlivesTransmission` exhibits an IDLE
  device that holds a current packet.
- The RX state is never entered. `AlohaSpec.Valid` (kept by every handler) includes
  `state != Rx`.
- The receive path has no length check and no malformed-frame error. The model requires the MAC
  and LLC headers to be present (`CanReceive`) and does not invent an error path.
- `SetMtu` stores any `uint16`, 0 included. The range [1, 65535] is enforced only by the
  attribute system.
- The receive callback is called without a null check (line 524). The model therefore requires
  it to be registered whenever a frame is not for another host (`CanReceive`).

## Model

| member | source | states |
|---|---|---|
| `Types.WrappingIncrement` | cognitive-radio/model/aloha-noack-cognitive-net-device.cc:523 | the counter's `++` on `uint32_t` is `(n + 1) mod 2^32`, and exactly `n + 1` below the maximum |
| `Mac48.BroadcastIsGroup` | cognitive-radio/model/aloha-noack-cognitive-net-device.cc:491-498 | the broadcast address is also a group address, which is why the broadcast test must come first |
| `Headers.RemoveHeader` | cognitive-radio/model/aloha-noack-cognitive-net-device.cc:482-488 | removing the outermost header is undone by adding it back, and the stack shrinks by one |
| `Headers.Frame` | cognitive-radio/model/aloha-noack-cognitive-net-device.cc:369-376 | the framed packet carries the MAC header (source, destination) outermost and the LLC header (protocol) beneath it, over the unchanged packet |
| `Headers.Unframe` | cognitive-radio/model/aloha-noack-cognitive-net-device.cc:482-488 | popping MAC then LLC yields parts that re-frame to exactly the received packet |
| `Headers.UnframeFrame` | cognitive-radio/model/aloha-noack-cognitive-net-device.cc:369-376 | popping MAC then LLC recovers exactly the packet, protocol number, source and destination that were pushed LLC then MAC |
| `Classifier.Classify` | cognitive-radio/model/aloha-noack-cognitive-net-device.cc:490-506 | BROADCAST iff broadcast; MULTICAST iff group and not broadcast; HOST iff not group and equal to own address; OTHERHOST iff neither group nor own |
| `Classifier.AcceptedIffGroupOrOwn` | cognitive-radio/model/aloha-noack-cognitive-net-device.cc:491-506 | a frame is classified other than OTHERHOST exactly when its destination is a group address or the device's own |
| `Classifier.GroupOwnAddressNeverHost` | cognitive-radio/model/aloha-noack-cognitive-net-device.cc:495-502 | because group is tested before own address, a device with a group own address never sees HOST |
| `AlohaSpec.Initial` | cognitive-radio/model/aloha-noack-cognitive-net-device.cc:114-118 | a new device is IDLE with an empty queue, no current packet, a zero counter (assumed, see Left out), and the attribute default address and MTU (lines 65-80) |
| `AlohaSpec.StartTransmission` | cognitive-radio/model/aloha-noack-cognitive-net-device.cc:427-442 | needs a current packet and IDLE; hands the current packet to the PHY; refusal leaves IDLE, acceptance moves to TX; queue and current packet untouched |
| `AlohaSpec.SendFrom` | cognitive-radio/model/aloha-noack-cognitive-net-device.cc:362-415 | MacTx fires with the framed packet; IDLE with an empty queue makes it the current packet, starts it, leaves the queue and returns true; otherwise it is appended iff the queue is below capacity, and if not, one MacTxDrop and `false`; the invariant is kept |
| `AlohaSpec.Send` | cognitive-radio/model/aloha-noack-cognitive-net-device.cc:354-358 | exactly `SendFrom` with the device's own address as source |
| `AlohaSpec.NotifyTransmissionEnd` | cognitive-radio/model/aloha-noack-cognitive-net-device.cc:446-460 | needs TX; always IDLE after; a non-empty queue loses exactly its head, which becomes the current packet with one more start scheduled; an empty queue leaves everything else, current packet included |
| `AlohaSpec.RunScheduledStart` | cognitive-radio/model/aloha-noack-cognitive-net-device.cc:458 | the scheduled start needs IDLE and a current packet (the assertions at lines 431-432), consumes one scheduled start and behaves as `StartTransmission` |
| `AlohaSpec.NotifyReceptionEndOk` | cognitive-radio/model/aloha-noack-cognitive-net-device.cc:478-526 | the promiscuous callback (if set) gets the inner packet, protocol, source, destination and class; for non-OTHERHOST frames MacRx and the receive callback fire and the counter rises by one (mod 2^32); for OTHERHOST the counter is unchanged |
| `AlohaFifo.AdmittedAppend` | cognitive-radio/model/aloha-noack-cognitive-net-device.cc:378-413 | the packets admitted (MacTx not followed by MacTxDrop) over two trace segments are those of each segment, in order, when the second segment does not start with a drop |
| `AlohaFifo.OfferedAppend` | cognitive-radio/model/aloha-noack-cognitive-net-device.cc:434 | the packets offered to the PHY over two trace segments are those of each segment, in order, when the second segment does not start with a drop |
| `AlohaFifo.TransmittedOfOffered` | cognitive-radio/model/aloha-noack-cognitive-net-device.cc:434-441 | the packets the PHY accepted are the packets offered to it less the refused ones, in the order offered |
| `AlohaFifo.SendKeepsFifo` | cognitive-radio/model/aloha-noack-cognitive-net-device.cc:380-413 | a send, whatever the PHY answers, keeps "admitted = offered, then pending": a packet offered at once joins both ends, a queued one joins the pending tail, a dropped one neither |
| `AlohaFifo.TransmissionEndKeepsFifo` | cognitive-radio/model/aloha-noack-cognitive-net-device.cc:446-460 | moving the queue head to the scheduled current packet keeps the pending sequence in order |
| `AlohaFifo.ScheduledStartKeepsFifo` | cognitive-radio/model/aloha-noack-cognitive-net-device.cc:427-442 | the scheduled start, accepted or refused, moves the first pending packet to the offered ones |
| `AlohaFifo.ReceiveKeepsFifo` | cognitive-radio/model/aloha-noack-cognitive-net-device.cc:478-526 | reception neither admits nor offers anything |
| `AlohaFifo.StepKeepsFifo` | cognitive-radio/model/aloha-noack-cognitive-net-device.cc:380-460 | every handler that may run keeps the FIFO invariant, with any PHY answers, as long as no send finds the queue empty while a start is scheduled (the race of lines 386-393) |
| `AlohaFifo.RunKeepsFifo` | cognitive-radio/model/aloha-noack-cognitive-net-device.cc:380-460 | the FIFO invariant holds after any such run |
| `AlohaFifo.FifoFromInitial` | cognitive-radio/model/aloha-noack-cognitive-net-device.cc:446-460 | from a new device, the packets offered to the PHY are a prefix of the packets admitted, in the same order and each once, and the rest are exactly the pending ones; the packets the PHY accepted are a subsequence of the admitted ones, in admission order |
| `AlohaQuirks.SentFrameDeliversHeaders` | cognitive-radio/model/aloha-noack-cognitive-net-device.cc:482-517 | the packet one device hands its PHY, received by another, reaches the promiscuous callback with exactly the sender's payload, protocol, source and destination |
| `AlohaQuirks.OtherHostFrameNotCounted` | cognitive-radio/model/aloha-noack-cognitive-net-device.cc:503-525 | a frame to a foreign unicast address produces only promiscuous deliveries and leaves the counter unchanged |
| `AlohaQuirks.BroadcastFrameCounted` | cognitive-radio/model/aloha-noack-cognitive-net-device.cc:491-525 | a broadcast frame is counted and ends with a receive-callback delivery of the inner packet, protocol and source |
| `AlohaQuirks.CurrentPacketOutlivesTransmission` | cognitive-radio/model/aloha-noack-cognitive-net-device.cc:446-459 | send then transmission end with nothing queued leaves an IDLE device that still holds the sent frame as its current packet |
| `AlohaQuirks.SendRacesScheduledStart` | cognitive-radio/model/aloha-noack-cognitive-net-device.cc:386-393 | a send while a start is scheduled and the queue is empty overwrites the current packet and, when the PHY accepts the send, moves to TX, so the scheduled start's IDLE assertion cannot hold |
| `AlohaQuirks.RefusedSendRacesScheduledStart` | cognitive-radio/model/aloha-noack-cognitive-net-device.cc:386-393 | the same race when the PHY refuses the send: the device stays IDLE, the scheduled start may run and offers the new frame again, and the dequeued packet stays admitted but is never offered and no longer pending |
| `AlohaQuirks.RaceReachable` | cognitive-radio/model/aloha-noack-cognitive-net-device.cc:446-460 | two sends and a transmission end bring a new device to IDLE with one start scheduled and an empty queue |
| `AlohaQuirks.StalledQueueNeverDrains` | cognitive-radio/model/aloha-noack-cognitive-net-device.cc:394-402 | once IDLE with a non-empty queue and nothing scheduled, any number of sends only enqueue: the device stays IDLE and nothing more is offered to the PHY |
| `AlohaQuirks.StallReachable` | cognitive-radio/model/aloha-noack-cognitive-net-device.cc:434-437 | a refused scheduled start with a packet left queued reaches that stalled state |
| `AlohaDevice.AlohaNoackNetDevice.constructor` | cognitive-radio/model/aloha-noack-cognitive-net-device.cc:114-118 | the new object's fields are `AlohaSpec.Initial` and satisfy the invariant |
| `AlohaDevice.AlohaNoackNetDevice.SetMtu` | cognitive-radio/model/aloha-noack-cognitive-net-device.cc:158-163 | returns true and `GetMtu` then reads the value set |
| `AlohaDevice.AlohaNoackNetDevice.SetAddress` | cognitive-radio/model/aloha-noack-cognitive-net-device.cc:183-187 | `GetAddress` then reads the address set; nothing else changes |
| `AlohaDevice.AlohaNoackNetDevice.SetReceiveCallback` | cognitive-radio/model/aloha-noack-cognitive-net-device.cc:330-334 | records whether the receive callback is set |
| `AlohaDevice.AlohaNoackNetDevice.SetPromiscReceiveCallback` | cognitive-radio/model/aloha-noack-cognitive-net-device.cc:338-342 | records whether the promiscuous callback is set |
| `AlohaDevice.AlohaNoackNetDevice.GetTotalReceivedPackets` | cognitive-radio/model/aloha-noack-cognitive-net-device.cc:527-531 | returns the counter of packets delivered through the filtered path |
| `AlohaDevice.AlohaNoackNetDevice.Enqueue` | cognitive-radio/model/aloha-noack-cognitive-net-device.cc:397-401 | succeeds iff the queue is below capacity, appending at the back; otherwise leaves the queue unchanged |
| `AlohaDevice.AlohaNoackNetDevice.StartTransmission` | cognitive-radio/model/aloha-noack-cognitive-net-device.cc:427-442 | updates the fields exactly as `AlohaSpec.StartTransmission` |
| `AlohaDevice.AlohaNoackNetDevice.SendFrom` | cognitive-radio/model/aloha-noack-cognitive-net-device.cc:362-415 | updates the fields and returns exactly as `AlohaSpec.SendFrom` |
| `AlohaDevice.AlohaNoackNetDevice.Send` | cognitive-radio/model/aloha-noack-cognitive-net-device.cc:354-358 | updates the fields and returns exactly as `AlohaSpec.Send` |
| `AlohaDevice.AlohaNoackNetDevice.NotifyTransmissionEnd` | cognitive-radio/model/aloha-noack-cognitive-net-device.cc:446-460 | updates the fields exactly as `AlohaSpec.NotifyTransmissionEnd` |
| `AlohaDevice.AlohaNoackNetDevice.RunScheduledStart` | cognitive-radio/model/aloha-noack-cognitive-net-device.cc:458 | updates the fields exactly as `AlohaSpec.RunScheduledStart` |
| `AlohaDevice.AlohaNoackNetDevice.NotifyReceptionEndOk` | cognitive-radio/model/aloha-noack-cognitive-net-device.cc:478-526 | pops the headers and updates the fields exactly as `AlohaSpec.NotifyReceptionEndOk` |
| `AlohaDevice.LinkCapabilities` | cognitive-radio/model/aloha-noack-cognitive-net-device.cc:197-253 | the device reports broadcast and multicast support, is neither point-to-point nor a bridge, and its broadcast address is the broadcast address |
| `AlohaDevice.ArpAndSendFromSupport` | cognitive-radio/model/aloha-noack-cognitive-net-device.cc:304-350 | the device needs ARP and supports `SendFrom` |

## Left out

- Type registration, attributes and trace-source registration (`GetTypeId`), logging and the
  `operator<<` printer are reflection and logging plumbing. The attribute defaults appear only
  as the initial address and MTU.
- `DoDispose` and the destructor release pointers only.
- `SetIfIndex`/`GetIfIndex` and the node, channel and PHY object setters and getters store
  opaque references and contain no logic.
- `SetQueue`: the queue is fixed when the device is created. A missing queue (a fatal assertion
  in the code) is not modelled.
- `SetGenericPhyTxStartCallback`: the start callback is assumed set. Its answer is the
  `phyRefused` input of the handlers that ask it.
- `IsLinkUp` and `AddLinkChangeCallback`: the link flag is initialised in the class header,
  which is not part of this model, and nothing in the modelled file changes it.
- `GetMulticast` (IPv4 and IPv6) delegates to the address library's multicast mapping, which is
  not part of this model.
- `NotifyReceptionStart` and `NotifyReceptionEndError` have empty bodies and change nothing.
- `Mac48Address::ConvertFrom`: addresses are 48-bit addresses throughout.
- The byte layout of the MAC and LLC/SNAP headers is not modelled: no wire format, no header
  size and no short-frame error. Packets are values, and `AddHeader`/`RemoveHeader` act on
  values. Aliasing between the caller's `Ptr<Packet>` and the queued or current packet is not
  represented.
- The queue is bounded by a number of packets. A byte-limited queue, and the queue's own drop
  trace, are not modelled.
- The discrete-event scheduler is reduced to the count of starts scheduled for the current
  instant. Simulated time and the PHY's timing are not modelled.
- The `MacPromiscRx` trace source is registered but never fired by the code, so it has no event.
- `cognitive-mac/model/mac-frames.h` only declares a frame record with no logic, so it is not
  part of this model.
- `AlohaFifo.FifoFromInitial`: in-order transmission is proved only for runs where no send
  finds the queue empty while a scheduled start is pending. Such a send overwrites the packet the
  scheduled start was to transmit (`SendRacesScheduledStart`); when the PHY refuses that send, the
  scheduled start re-offers the new frame and the dequeued packet is silently lost
  (`RefusedSendRacesScheduledStart`). A packet the PHY refuses is offered
  once and lost, and after a refused scheduled start the queue stalls (`StalledQueueNeverDrains`).
  Order is kept in both cases.
- `AlohaSpec.Initial`: `TotalNumberOfPackets` is assumed to be a `uint32_t` that is zero at
  construction. It is declared in the class header, which is not part of this model.
- `AlohaSpec.NotifyReceptionEndOk`: requires a registered receive callback for frames not
  addressed to another host, because line 524 would call a null callback.
