/** `std::net::IpAddr`: an IPv4 address as its 32-bit value, an IPv6 address as its 128-bit value. */
module Net {
  import opened Bytes

  datatype IpAddr = IpV4(v4: u32) | IpV6(v6: u128)
}
