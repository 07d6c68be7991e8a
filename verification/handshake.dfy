/**
 The signed handshake messages of handshake.go and their framing
 (`packHandShakeMessage` of socket.go).

 Two fixed layouts:
   Start (76 bytes)      ip[0,4) ‖ session[4,12) ‖ signature[12,76)
   HandShake (137 bytes) session[0,8) ‖ epk[8,73) ‖ signature[73,137)
 The signature always covers exactly the bytes before the signature field.
 */
module Handshake {
  import opened Bytes
  import opened Outcomes
  import opened Net
  import opened Crypto

  /** Protocol version (byte 0 of every datagram) and message types (byte 1). */
  const ProtocolVer: byte := 0xDF
  const MsgSTR: byte := 0x01
  const MsgSHS: byte := 0x02
  const MsgCHS: byte := 0x03
  const MsgDFE: byte := 0xAA

  const SizeXHS: nat := 8 + 65 + 64
  const XhsEPKOffset: nat := 8
  const XhsSigOffset: nat := 73
  const SizeSTR: nat := 76
  const StrSesOffset: nat := 4
  const StrSigOffset: nat := 12

  /** `startHandShake`: sent by the initiator. */
  datatype StartHandShake = StartHandShake(ip: Bytes4, session: Bytes8, signature: Bytes64)

  /** `handShake`: the server response and the client response share it. */
  datatype HandShake = HandShake(session: Bytes8, epk: Bytes65, signature: Bytes64)

  /** `handShakeInterface`: the two message kinds behind one dump/size contract. */
  datatype HsMessage = StartMsg(start: StartHandShake) | KeyMsg(key: HandShake)

  /** A dumped message: the receiver after `dump` (its signature field is
      overwritten) and the bytes for the wire. */
  datatype Dumped<M> = Dumped(updated: M, wire: seq<byte>)

  /** `extractIP`: the first four bytes of a Start body, as a `net.IP`. */
  function ExtractIP(buf: seq<byte>): (ip: IP)
    requires |buf| >= 4
    ensures To4(ip) == Some(buf[..4])
  {
    To4OfIPv4(buf[0], buf[1], buf[2], buf[3]);
    assert buf[..4] == [buf[0], buf[1], buf[2], buf[3]];
    IPv4(buf[0], buf[1], buf[2], buf[3])
  }

  /** `startHandShake.dump`: lays out ip and session, signs that 12-byte
      prefix, and appends the signature. */
  function DumpStart(s: Suite, sk: SigningKey, hs: StartHandShake): (r: Result<Dumped<StartHandShake>>)
    ensures r.Err? <==> s.sign(sk, hs.ip + hs.session).None?
    ensures r.Err? ==> r.error == SigningFailed
    ensures r.Ok? ==> |r.value.wire| == SizeSTR
    ensures r.Ok? ==> r.value.wire[..StrSesOffset] == hs.ip && r.value.wire[StrSesOffset..StrSigOffset] == hs.session
    ensures r.Ok? ==> s.sign(sk, r.value.wire[..StrSigOffset]) == Some(r.value.wire[StrSigOffset..])
    ensures r.Ok? ==> r.value.updated == hs.(signature := r.value.wire[StrSigOffset..])
  {
    var prefix := hs.ip + hs.session;
    match s.sign(sk, prefix)
    case None => Err(SigningFailed)
    case Some(sig) =>
      assert (prefix + sig)[..StrSigOffset] == prefix;
      Ok(Dumped(hs.(signature := sig), prefix + sig))
  }

  /** `startHandShake.load`: rejects short input, decodes the first 76 bytes
      and checks the embedded signature against the 12-byte prefix. */
  function LoadStart(s: Suite, pk: VerifyKey, data: seq<byte>): (r: Result<StartHandShake>)
    ensures |data| < SizeSTR <==> r == Err(InvalidDataSize)
    ensures |data| >= SizeSTR ==> (r.Ok? <==> s.verify(pk, data[..StrSigOffset], data[StrSigOffset..SizeSTR]))
    ensures |data| >= SizeSTR && r.Err? ==> r.error == InvalidSignature
    ensures r.Ok? ==> r.value.ip + r.value.session + r.value.signature == data[..SizeSTR]
  {
    if |data| < SizeSTR then Err(InvalidDataSize)
    else
      var hs := StartHandShake(data[..StrSesOffset], data[StrSesOffset..StrSigOffset], data[StrSigOffset..SizeSTR]);
      if !s.verify(pk, data[0..StrSigOffset], hs.signature) then Err(InvalidSignature)
      else Ok(hs)
  }

  /** `handShake.dump`: lays out session and ephemeral key, signs that
      73-byte prefix, and appends the signature. */
  function DumpHandShake(s: Suite, sk: SigningKey, hs: HandShake): (r: Result<Dumped<HandShake>>)
    ensures r.Err? <==> s.sign(sk, hs.session + hs.epk).None?
    ensures r.Err? ==> r.error == SigningFailed
    ensures r.Ok? ==> |r.value.wire| == SizeXHS
    ensures r.Ok? ==> r.value.wire[..XhsEPKOffset] == hs.session && r.value.wire[XhsEPKOffset..XhsSigOffset] == hs.epk
    ensures r.Ok? ==> s.sign(sk, r.value.wire[..XhsSigOffset]) == Some(r.value.wire[XhsSigOffset..])
    ensures r.Ok? ==> r.value.updated == hs.(signature := r.value.wire[XhsSigOffset..])
  {
    var prefix := hs.session + hs.epk;
    match s.sign(sk, prefix)
    case None => Err(SigningFailed)
    case Some(sig) =>
      assert (prefix + sig)[..XhsSigOffset] == prefix;
      Ok(Dumped(hs.(signature := sig), prefix + sig))
  }

  /** `handShake.load`: rejects short input, decodes the first 137 bytes
      and checks the embedded signature against the 73-byte prefix. */
  function LoadHandShake(s: Suite, pk: VerifyKey, data: seq<byte>): (r: Result<HandShake>)
    ensures |data| < SizeXHS <==> r == Err(InvalidDataSize)
    ensures |data| >= SizeXHS ==> (r.Ok? <==> s.verify(pk, data[..XhsSigOffset], data[XhsSigOffset..SizeXHS]))
    ensures |data| >= SizeXHS && r.Err? ==> r.error == InvalidSignature
    ensures r.Ok? ==> r.value.session + r.value.epk + r.value.signature == data[..SizeXHS]
  {
    if |data| < SizeXHS then Err(InvalidDataSize)
    else
      var hs := HandShake(data[..XhsEPKOffset], data[XhsEPKOffset..XhsSigOffset], data[XhsSigOffset..SizeXHS]);
      if !s.verify(pk, data[0..XhsSigOffset], hs.signature) then Err(InvalidSignature)
      else Ok(hs)
  }

  /** `size()` of either message kind. */
  function Size(m: HsMessage): (n: nat)
    ensures m.StartMsg? <==> n == SizeSTR
    ensures m.KeyMsg? <==> n == SizeXHS
  {
    match m
    case StartMsg(_) => SizeSTR
    case KeyMsg(_) => SizeXHS
  }

  /** `dump` through the interface: the wire form is always `Size` bytes. */
  function Dump(s: Suite, sk: SigningKey, m: HsMessage): (r: Result<Dumped<HsMessage>>)
    ensures r.Ok? ==> |r.value.wire| == Size(m)
    ensures r.Err? ==> r.error == SigningFailed
    ensures r.Ok? ==> r.value.updated.StartMsg? == m.StartMsg?
  {
    match m
    case StartMsg(hs) =>
      (match DumpStart(s, sk, hs)
       case Err(e) => Err(e)
       case Ok(d) => Ok(Dumped(StartMsg(d.updated), d.wire)))
    case KeyMsg(hs) =>
      (match DumpHandShake(s, sk, hs)
       case Err(e) => Err(e)
       case Ok(d) => Ok(Dumped(KeyMsg(d.updated), d.wire)))
  }

  /** `packHandShakeMessage` (socket.go): the 2-byte header [ProtocolVer,
      type] followed by the dumped body; a dump error is returned as is. */
  function PackHandShakeMessage(s: Suite, sk: SigningKey, msgType: byte, m: HsMessage): (r: Result<seq<byte>>)
    ensures r.Err? <==> Dump(s, sk, m).Err?
    ensures r.Err? ==> r.error == Dump(s, sk, m).error
    ensures r.Ok? ==> |r.value| == 2 + Size(m)
    ensures r.Ok? ==> r.value[0] == ProtocolVer && r.value[1] == msgType && r.value[2..] == Dump(s, sk, m).value.wire
  {
    match Dump(s, sk, m)
    case Err(e) => Err(e)
    case Ok(d) => Ok([ProtocolVer, msgType] + CopyInto(Zeros(Size(m)), d.wire))
  }

  /** Round trip: what `dump` signs with `sk`, `load` accepts under the
      matching public key, restoring ip and session. */
  lemma StartRoundTrip(s: Suite, sk: SigningKey, hs: StartHandShake)
    requires SignatureSound(s)
    requires DumpStart(s, sk, hs).Ok?
    ensures LoadStart(s, s.verifyKeyOf(sk), DumpStart(s, sk, hs).value.wire) == Ok(DumpStart(s, sk, hs).value.updated)
    ensures DumpStart(s, sk, hs).value.updated.ip == hs.ip
    ensures DumpStart(s, sk, hs).value.updated.session == hs.session
  {
    var d := DumpStart(s, sk, hs).value;
    var sig := s.sign(sk, hs.ip + hs.session).value;
    assert d.wire == hs.ip + hs.session + sig;
    assert d.wire[..StrSesOffset] == hs.ip;
    assert d.wire[StrSesOffset..StrSigOffset] == hs.session;
    assert d.wire[StrSigOffset..SizeSTR] == sig;
    assert d.wire[0..StrSigOffset] == hs.ip + hs.session;
  }

  /** Round trip for the server and client responses. */
  lemma HandShakeRoundTrip(s: Suite, sk: SigningKey, hs: HandShake)
    requires SignatureSound(s)
    requires DumpHandShake(s, sk, hs).Ok?
    ensures LoadHandShake(s, s.verifyKeyOf(sk), DumpHandShake(s, sk, hs).value.wire) == Ok(DumpHandShake(s, sk, hs).value.updated)
    ensures DumpHandShake(s, sk, hs).value.updated.session == hs.session
    ensures DumpHandShake(s, sk, hs).value.updated.epk == hs.epk
  {
    var d := DumpHandShake(s, sk, hs).value;
    var sig := s.sign(sk, hs.session + hs.epk).value;
    assert d.wire == hs.session + hs.epk + sig;
    assert d.wire[..XhsEPKOffset] == hs.session;
    assert d.wire[XhsEPKOffset..XhsSigOffset] == hs.epk;
    assert d.wire[XhsSigOffset..SizeXHS] == sig;
    assert d.wire[0..XhsSigOffset] == hs.session + hs.epk;
  }

  /** Bytes beyond the fixed size are never looked at. */
  lemma LoadStartIgnoresTrailing(s: Suite, pk: VerifyKey, data: seq<byte>, extra: seq<byte>)
    requires |data| >= SizeSTR
    ensures LoadStart(s, pk, data + extra) == LoadStart(s, pk, data)
  {
    var both := data + extra;
    assert both[..StrSesOffset] == data[..StrSesOffset];
    assert both[StrSesOffset..StrSigOffset] == data[StrSesOffset..StrSigOffset];
    assert both[StrSigOffset..SizeSTR] == data[StrSigOffset..SizeSTR];
    assert both[0..StrSigOffset] == data[0..StrSigOffset];
  }

  lemma LoadHandShakeIgnoresTrailing(s: Suite, pk: VerifyKey, data: seq<byte>, extra: seq<byte>)
    requires |data| >= SizeXHS
    ensures LoadHandShake(s, pk, data + extra) == LoadHandShake(s, pk, data)
  {
    var both := data + extra;
    assert both[..XhsEPKOffset] == data[..XhsEPKOffset];
    assert both[XhsEPKOffset..XhsSigOffset] == data[XhsEPKOffset..XhsSigOffset];
    assert both[XhsSigOffset..SizeXHS] == data[XhsSigOffset..SizeXHS];
    assert both[0..XhsSigOffset] == data[0..XhsSigOffset];
  }

  /** Whatever the receiver's signature field held before `dump`, it never
      reaches the wire: the output depends on the other fields only. */
  lemma DumpOverwritesSignature(s: Suite, sk: SigningKey, m: HsMessage, sig: Bytes64)
    ensures m.StartMsg? ==> Dump(s, sk, StartMsg(m.start.(signature := sig))) == Dump(s, sk, m)
    ensures m.KeyMsg? ==> Dump(s, sk, KeyMsg(m.key.(signature := sig))) == Dump(s, sk, m)
  {
  }

  /** The relay's `extractIP` reads exactly the ip field that `load` decodes. */
  lemma ExtractIPIsStartIP(s: Suite, pk: VerifyKey, data: seq<byte>)
    requires LoadStart(s, pk, data).Ok?
    ensures To4(ExtractIP(data)) == Some(LoadStart(s, pk, data).value.ip)
  {
    var hs := LoadStart(s, pk, data).value;
    assert data[..SizeSTR][..4] == data[..4];
    assert (hs.ip + hs.session + hs.signature)[..4] == hs.ip;
  }
}
