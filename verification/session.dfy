/** Session identifiers of helper.go: the initiator's IPv4 address in the
    first four bytes, four random bytes after it. */
module Session {
  import opened Bytes
  import opened Outcomes
  import opened Net

  /** `packIPinSession`: `ip` is what `net.ParseIP` returned (nil, the empty
      sequence, when the text is not an address) and `random` the four bytes
      `rand.Read` wrote. A non-IPv4 address leaves the first four bytes zero. */
  function PackIPinSession(ip: IP, random: Bytes4): (ses: Bytes8)
    ensures To4(ip).Some? ==> ses[..4] == To4(ip).value
    ensures To4(ip).None? ==> ses[..4] == Zeros(4)
    ensures ses[4..] == random
  {
    var ses := Zeros(8);
    var ses := CopyInto(ses, match To4(ip) case Some(v4) => v4 case None => []);
    ses[..4] + CopyInto(ses[4..], random)
  }

  /** `unpackIPfromSession`: the first four bytes as a `net.IP`. */
  function UnpackIPfromSession(session: Bytes8): (ip: IP)
    ensures To4(ip) == Some(session[..4])
  {
    To4OfIPv4(session[0], session[1], session[2], session[3]);
    assert session[..4] == [session[0], session[1], session[2], session[3]];
    IPv4(session[0], session[1], session[2], session[3])
  }

  /** Unpacking looks at bytes 0..3 only. */
  lemma UnpackReadsPrefixOnly(a: Bytes8, b: Bytes8)
    requires a[..4] == b[..4]
    ensures UnpackIPfromSession(a) == UnpackIPfromSession(b)
  {
    assert a[0] == a[..4][0] && a[1] == a[..4][1] && a[2] == a[..4][2] && a[3] == a[..4][3];
    assert b[0] == b[..4][0] && b[1] == b[..4][1] && b[2] == b[..4][2] && b[3] == b[..4][3];
  }

  /** For every IPv4 address and every random suffix, unpacking the packed
      session gives the same address (as `net.IP.Equal` sees it: the same
      4-byte form), and gives it back byte for byte when it was in the
      16-byte form that `net.ParseIP` produces. */
  lemma PackUnpackRoundTrip(ip: IP, random: Bytes4)
    requires To4(ip).Some?
    ensures To4(UnpackIPfromSession(PackIPinSession(ip, random))) == To4(ip)
    ensures |ip| == 16 ==> UnpackIPfromSession(PackIPinSession(ip, random)) == ip
  {
    var ses := PackIPinSession(ip, random);
    if |ip| == 16 {
      assert ip == ip[..12] + ip[12..];
      assert ses[..4] == ip[12..];
      assert UnpackIPfromSession(ses) == V4InV6Prefix + [ses[0], ses[1], ses[2], ses[3]];
      assert [ses[0], ses[1], ses[2], ses[3]] == ses[..4];
    }
  }
}
