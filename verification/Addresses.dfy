/** IP addresses as numbers, and networks as prefixes of them. */
module Addresses {
  type v4bits = x: nat | x < 0x1_0000_0000
  type v6bits = x: nat | x < 0x1_0000_0000_0000_0000_0000_0000_0000_0000

  datatype IpAddr = V4(v4: v4bits) | V6(v6: v6bits)
}
