/**
 * Packets as values: a stack of protocol headers over an opaque payload. The two headers the
 * device pushes and pops are the LLC/SNAP header (carrying the protocol number) and the
 * ALOHA MAC header (carrying source and destination). Their byte layout is not modelled.
 */
module Headers {
  import opened Types
  import opened Mac48

  datatype Header =
    | LlcSnapHeader(protocol: uint16)
    | AlohaNoackMacHeader(source: Mac48Address, destination: Mac48Address)

  /** A packet: `headers[0]` is the outermost header, `payload` the bytes of the upper layer. */
  datatype Packet = Packet(headers: seq<Header>, payload: seq<bv8>)

  /** `Packet::AddHeader`: the new header becomes the outermost one. */
  function AddHeader(p: Packet, h: Header): Packet {
    p.(headers := [h] + p.headers)
  }

  /** `Packet::RemoveHeader`: splits off the outermost header; it undoes `AddHeader`. */
  function RemoveHeader(p: Packet): (r: (Header, Packet))
    requires p.headers != []
    ensures AddHeader(r.1, r.0) == p
    ensures |r.1.headers| == |p.headers| - 1
  {
    (p.headers[0], p.(headers := p.headers[1..]))
  }

  /** Removing a header just added gives back the header and the packet it was added to. */
  lemma RemoveAddHeader(p: Packet, h: Header)
    ensures RemoveHeader(AddHeader(p, h)) == (h, p)
  {
    assert AddHeader(p, h).headers[1..] == p.headers;
  }

  /** What the device puts on the air: the LLC header first, then the MAC header outside it. */
  function Frame(p: Packet, src: Mac48Address, dst: Mac48Address, protocol: uint16): (r: Packet)
    ensures Framed(r)
    ensures r.headers[0] == AlohaNoackMacHeader(src, dst) && r.headers[1] == LlcSnapHeader(protocol)
    ensures r.headers[2..] == p.headers && r.payload == p.payload
  {
    AddHeader(AddHeader(p, LlcSnapHeader(protocol)), AlohaNoackMacHeader(src, dst))
  }

  /** A packet whose outermost header is a MAC header and whose next one is an LLC/SNAP header. */
  predicate Framed(p: Packet) {
    |p.headers| >= 2 && p.headers[0].AlohaNoackMacHeader? && p.headers[1].LlcSnapHeader?
  }

  /** A received frame taken apart the way the receive path does: MAC header first, then LLC. */
  datatype Unframed = Unframed(inner: Packet, protocol: uint16, source: Mac48Address, destination: Mac48Address)

  function Unframe(p: Packet): (r: Unframed)
    requires Framed(p)
    ensures Frame(r.inner, r.source, r.destination, r.protocol) == p
  {
    var (mac, afterMac) := RemoveHeader(p);
    var (llc, inner) := RemoveHeader(afterMac);
    Unframed(inner, llc.protocol, mac.source, mac.destination)
  }

  /** Popping the two headers yields exactly the packet, protocol, source and destination pushed. */
  lemma UnframeFrame(p: Packet, src: Mac48Address, dst: Mac48Address, protocol: uint16)
    ensures Unframe(Frame(p, src, dst, protocol)) == Unframed(p, protocol, src, dst)
  {
    var once := AddHeader(p, LlcSnapHeader(protocol));
    RemoveAddHeader(once, AlohaNoackMacHeader(src, dst));
    RemoveAddHeader(p, LlcSnapHeader(protocol));
  }
}
