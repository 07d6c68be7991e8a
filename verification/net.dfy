/**
 The parts of Go's `net` package that the core relies on: the two forms of
 an IPv4 address held in a `net.IP`, the `To4` normalisation, and UDP
 addresses compared through their `String()` form.
 */
module Net {
  import opened Bytes
  import opened Outcomes

  /** A `net.IP` is a byte slice: 4 bytes, 16 bytes, or nil (the empty
      sequence) when parsing failed. */
  type IP = seq<byte>

  /** The 12-byte prefix of an IPv4-mapped IPv6 address (::ffff:a.b.c.d). */
  const V4InV6Prefix: seq<byte> := [0, 0, 0, 0, 0, 0, 0, 0, 0, 0, 0xff, 0xff]

  /** `net.IPv4(a, b, c, d)`: always the 16-byte IPv4-mapped form. */
  function IPv4(a: byte, b: byte, c: byte, d: byte): (ip: IP)
    ensures |ip| == 16
  {
    V4InV6Prefix + [a, b, c, d]
  }

  /** `ip.To4()`: the 4-byte form of an IPv4 address, or nil (`None`) for
      anything that is not one. */
  function To4(ip: IP): (r: Option<Bytes4>)
    ensures r.Some? <==> |ip| == 4 || (|ip| == 16 && ip[..12] == V4InV6Prefix)
    ensures r.Some? ==> r.value == ip[|ip| - 4..]
  {
    if |ip| == 4 then Some(ip)
    else if |ip| == 16 && ip[..12] == V4InV6Prefix then Some(ip[12..])
    else None
  }

  /** `To4` undoes `IPv4`: the mapped form carries exactly the four octets. */
  lemma To4OfIPv4(a: byte, b: byte, c: byte, d: byte)
    ensures To4(IPv4(a, b, c, d)) == Some([a, b, c, d])
  {
    assert IPv4(a, b, c, d)[..12] == V4InV6Prefix;
  }

  /** A UDP address, identified by its `String()` text ("ip:port"). The
      registry and the socket only ever compare or key addresses by that
      text, so the text is the whole model of the address. */
  datatype UdpAddr = UdpAddr(text: string)

  /** `addr.String()`. */
  function AddrString(a: UdpAddr): string
  {
    a.text
  }
}
