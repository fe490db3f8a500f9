/** 48-bit link-layer addresses, with the two predicates the receive path asks of them. */
module Mac48 {

  /** A `Mac48Address`: six octets, the first one transmitted first. */
  type Mac48Address = s: seq<bv8> | |s| == 6 witness [0, 0, 0, 0, 0, 0]

  /** `Mac48Address::GetBroadcast()`: ff:ff:ff:ff:ff:ff. */
  const Broadcast: Mac48Address := [0xff, 0xff, 0xff, 0xff, 0xff, 0xff]

  /** `Mac48Address::IsBroadcast()`. */
  predicate IsBroadcast(a: Mac48Address) {
    a == Broadcast
  }

  /** `Mac48Address::IsGroup()`: the individual/group bit, the low bit of the first octet. */
  predicate IsGroup(a: Mac48Address) {
    a[0] & 0x01 == 0x01
  }

  /** The broadcast address is itself a group address. */
  lemma BroadcastIsGroup(a: Mac48Address)
    requires IsBroadcast(a)
    ensures IsGroup(a)
  {
  }
}
