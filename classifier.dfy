/** The receive path's classification of a destination address. */
module Classifier {
  import opened Mac48

  /** `NetDevice::PacketType`. */
  datatype PacketType = PacketHost | PacketBroadcast | PacketMulticast | PacketOtherHost

  /** The ordered test: broadcast, then group, then the device's own address, else another host. */
  function Classify(dst: Mac48Address, own: Mac48Address): (r: PacketType)
    ensures r == PacketBroadcast <==> IsBroadcast(dst)
    ensures r == PacketMulticast <==> IsGroup(dst) && !IsBroadcast(dst)
    ensures r == PacketHost <==> !IsGroup(dst) && dst == own
    ensures r == PacketOtherHost <==> !IsGroup(dst) && dst != own
  {
    if IsBroadcast(dst) then PacketBroadcast
    else if IsGroup(dst) then PacketMulticast
    else if dst == own then PacketHost
    else PacketOtherHost
  }

  /** A frame goes up the filtered path exactly when its destination is a group address or ours. */
  lemma AcceptedIffGroupOrOwn(dst: Mac48Address, own: Mac48Address)
    ensures Classify(dst, own) != PacketOtherHost <==> IsGroup(dst) || dst == own
  {
  }

  /** A device whose own address is a group address never classifies anything as HOST. */
  lemma GroupOwnAddressNeverHost(dst: Mac48Address, own: Mac48Address)
    requires IsGroup(own)
    ensures Classify(dst, own) != PacketHost
  {
  }
}
