/**
 How the two ends of socket.go fit together: each filter accepts what the
 other side builds, both sides end with the same key, and what one side
 sends the other receives. Also where the two sides deviate from what the
 protocol suggests: the response filter ignores the version byte, and the
 initiator's Start names no virtual address, so the relay can only file it
 under 0.0.0.0.
 */
module SocketProps {
  import opened Bytes
  import opened Outcomes
  import opened Net
  import opened Crypto
  import opened Handshake
  import opened DataFrame
  import opened Registry
  import Relay
  import opened Socket

  /** A handshake packet's body decodes, under the signer's public key, to
      the message that was packed, signature included. */
  lemma PackedHandShakeLoads(s: Suite, sk: SigningKey, msgType: byte, hs: HandShake)
    requires SignatureSound(s)
    requires PackHandShakeMessage(s, sk, msgType, KeyMsg(hs)).Ok?
    ensures
      var p := PackHandShakeMessage(s, sk, msgType, KeyMsg(hs)).value;
      && |p| == 2 + SizeXHS && p[0] == ProtocolVer && p[1] == msgType
      && LoadHandShake(s, s.verifyKeyOf(sk), p[2..]).Ok?
      && LoadHandShake(s, s.verifyKeyOf(sk), p[2..]).value.session == hs.session
      && LoadHandShake(s, s.verifyKeyOf(sk), p[2..]).value.epk == hs.epk
      && s.sign(sk, hs.session + hs.epk) == Some(LoadHandShake(s, s.verifyKeyOf(sk), p[2..]).value.signature)
  {
    var d := DumpHandShake(s, sk, hs).value;
    HandShakeRoundTrip(s, sk, hs);
    assert d.wire[..XhsSigOffset] == hs.session + hs.epk by {
      assert d.wire[..XhsEPKOffset] + d.wire[XhsEPKOffset..XhsSigOffset] == d.wire[..XhsSigOffset];
    }
  }

  /** The responder accepts the initiator's response when it comes from the
      peer, and learns the initiator's ephemeral key from it. The zeroed
      signature the initiator puts in the message is replaced by a real one. */
  lemma ResponseAccepted(s: Suite, sk: SigningKey, session: Bytes8, eph: EphemeralKey, peer: UdpAddr)
    requires SignatureSound(s)
    requires ClientResponse(s, sk, session, eph).Ok?
    ensures
      var p := ClientResponse(s, sk, session, eph).value;
      var v := ScreenResponse(Expect(Responder, s, s.verifyKeyOf(sk), session, peer), p, peer);
      && v.Take?
      && v.value.epk == s.ephemeralPublic(eph)
      && s.sign(sk, session + s.ephemeralPublic(eph)) == Some(v.value.signature)
  {
    PackedHandShakeLoads(s, sk, MsgCHS, HandShake(session, s.ephemeralPublic(eph), Zeros(64)));
  }

  /** The initiator accepts the responder's message when it comes from the
      peer, and learns the responder's ephemeral key from it. */
  lemma ReplyAccepted(s: Suite, sk: SigningKey, session: Bytes8, eph: EphemeralKey, peer: UdpAddr)
    requires SignatureSound(s)
    requires ServerReply(s, sk, session, eph).Ok?
    ensures
      var p := ServerReply(s, sk, session, eph).value;
      var v := ScreenReply(Expect(Initiator, s, s.verifyKeyOf(sk), session, peer), p, peer);
      v.Take? && v.value.epk == s.ephemeralPublic(eph)
  {
    PackedHandShakeLoads(s, sk, MsgSHS, HandShake(session, s.ephemeralPublic(eph), Zeros(64)));
  }

  /** The relay speaks the endpoint's protocol: the datagram `handleSTR`
      answers a Start with is the responder's signed message for the
      Start's session, and an initiator that sent that Start to the relay
      accepts it and learns the relay's new ephemeral key. */
  lemma RelayReplyAccepted(env: Relay.Env, t: ConnTable, e: Relay.Entropy, msg: Relay.IOMessage, relay: UdpAddr)
    requires SignatureSound(env.suite)
    requires Linked(t) && |msg.buffer| == Relay.BufferSize
    requires Relay.HandleSTR(env, t, e, msg).reply.Ok?
    ensures
      var out := Relay.HandleSTR(env, t, e, msg).reply.value;
      var x := Expect(Initiator, env.suite, env.suite.verifyKeyOf(env.signKey), msg.buffer[6..14], relay);
      && out.buffer[..out.n] == ServerReply(env.suite, env.signKey, msg.buffer[6..14], e.ephemeral.value).value
      && ScreenReply(x, out.buffer[..out.n], relay).Take?
      && ScreenReply(x, out.buffer[..out.n], relay).value.epk == env.suite.ephemeralPublic(e.ephemeral.value)
  {
    ReplyAccepted(env.suite, env.signKey, msg.buffer[6..14], e.ephemeral.value, relay);
  }

  /** The responder accepts the initiator's Start, whoever sent it, and
      takes its session id. */
  lemma StartAccepted(s: Suite, sk: SigningKey, session: Bytes8)
    requires SignatureSound(s)
    requires PackHandShakeMessage(s, sk, MsgSTR, StartMsg(ClientStart(session))).Ok?
    ensures
      var p := PackHandShakeMessage(s, sk, MsgSTR, StartMsg(ClientStart(session))).value;
      ScreenStart(s, s.verifyKeyOf(sk), p).Take? && ScreenStart(s, s.verifyKeyOf(sk), p).value.session == session
  {
    var start := ClientStart(session);
    StartRoundTrip(s, sk, start);
  }

  /** The response filter reads the type byte only: whatever the version
      byte, the verdict is the same. */
  lemma ResponseIgnoresVersion(x: Expect, version: byte, rest: seq<byte>, from: UdpAddr)
    ensures ScreenResponse(x, [version, MsgCHS] + rest, from) == ScreenResponse(x, [ProtocolVer, MsgCHS] + rest, from)
  {
    assert ([version, MsgCHS] + rest)[2..] == rest;
    assert ([ProtocolVer, MsgCHS] + rest)[2..] == rest;
  }

  /** The initiator's Start carries the address 0.0.0.0, so the relay
      looks it up under the key 0 whatever host sent it. */
  lemma ClientStartNamesNoHost(t: ConnTable, s: Suite, sk: SigningKey, session: Bytes8, from: UdpAddr)
    requires Linked(t)
    requires PackHandShakeMessage(s, sk, MsgSTR, StartMsg(ClientStart(session))).Ok?
    ensures
      var p := PackHandShakeMessage(s, sk, MsgSTR, StartMsg(ClientStart(session))).value;
      Relay.StartTarget(t, Relay.Receive(from, p)).Ok? <==> 0 in t.private
  {
    var p := PackHandShakeMessage(s, sk, MsgSTR, StartMsg(ClientStart(session))).value;
    var msg := Relay.Receive(from, p);
    var wire := Dump(s, sk, StartMsg(ClientStart(session))).value.wire;
    assert wire[..StrSesOffset] == Zeros(4);
    assert msg.buffer[2..6] == wire[..4];
    assert BigEndianUint32(Zeros(4)) == 0;
  }

  /** Once both sides have run key agreement on each other's ephemeral
      keys, they hold the same 32-byte AES key. */
  lemma BothSidesAgree(s: Suite, client: EphemeralKey, server: EphemeralKey)
    requires AgreementSound(s)
    ensures
      var c := SharedSecret(s, Cipher(client, None), PublicKey(s, Cipher(server, None)));
      var r := SharedSecret(s, Cipher(server, None), PublicKey(s, Cipher(client, None)));
      && c.Ok? && r.Ok?
      && c.value.shared == r.value.shared
      && AesKeyValid(c.value.shared.value)
  {
    assert s.agree(client, s.ephemeralPublic(server)) == s.agree(server, s.ephemeralPublic(client));
  }

  /** Every handshake message on the trace that verifies under `vk`
      carries the ephemeral key `epk`: the holder of the signing key is the
      peer, and it runs a single handshake. */
  ghost predicate SignedKeysAre(s: Suite, vk: VerifyKey, trace: seq<Event>, epk: Bytes65)
  {
    forall i | 0 <= i < |trace| ::
      trace[i].Datagram? && |trace[i].data| >= 2 && LoadHandShake(s, vk, trace[i].data[2..]).Ok? ==>
        LoadHandShake(s, vk, trace[i].data[2..]).value.epk == epk
  }

  /** End to end: when the initiator and the responder both complete, and
      the only signed handshake messages each one reads carry the other's
      ephemeral key, both ciphers hold the same 32-byte AES key. */
  lemma HandshakesAgree(s: Suite, ska: SigningKey, vka: VerifyKey, skb: SigningKey, vkb: VerifyKey,
                        session: Bytes8, raddrC: UdpAddr, raddrS: Option<UdpAddr>, gc: EphemeralKey, gs: EphemeralKey,
                        writeC: nat -> bool, writeS: nat -> bool, tc: seq<Event>, ts: seq<Event>)
    requires AgreementSound(s)
    requires SignedKeysAre(s, vkb, tc, s.ephemeralPublic(gs))
    requires SignedKeysAre(s, vka, ts, s.ephemeralPublic(gc))
    requires HandShakeClient(s, ska, vkb, session, raddrC, Some(gc), writeC, tc).outcome.Done?
    requires HandShakeServer(s, skb, vka, raddrS, Some(gs), writeS, ts).outcome.Done?
    requires 0 < |HandShakeServer(s, skb, vka, raddrS, Some(gs), writeS, ts).written|
    ensures
      var c := HandShakeClient(s, ska, vkb, session, raddrC, Some(gc), writeC, tc).outcome.value;
      var e := HandShakeServer(s, skb, vka, raddrS, Some(gs), writeS, ts).outcome.value.encrypt;
      && c.shared == e.shared
      && c.shared.Some? && |c.shared.value| == 32
  {
    var cl := HandShakeClient(s, ska, vkb, session, raddrC, Some(gc), writeC, tc);
    var x := Expect(Initiator, s, vkb, session, raddrC);
    var i :| 0 <= i < cl.used && tc[i].Datagram? && ScreenReply(x, tc[i].data, tc[i].from).Take?
             && cl.outcome.value.shared == s.agree(gc, ScreenReply(x, tc[i].data, tc[i].from).value.epk);
    assert ScreenReply(x, tc[i].data, tc[i].from).value.epk == s.ephemeralPublic(gs);
    var sv := HandShakeServer(s, skb, vka, raddrS, Some(gs), writeS, ts);
    var st := AwaitStart(s, vka, ts);
    var y := Expect(Responder, s, vka, st.start.session, sv.outcome.value.raddr);
    var j :| st.used <= j < sv.used && ts[j].Datagram? && ScreenResponse(y, ts[j].data, ts[j].from).Take?
             && sv.outcome.value.encrypt.shared == s.agree(gs, ScreenResponse(y, ts[j].data, ts[j].from).value.epk);
    assert ScreenResponse(y, ts[j].data, ts[j].from).value.epk == s.ephemeralPublic(gc);
    assert s.agree(gc, s.ephemeralPublic(gs)) == s.agree(gs, s.ephemeralPublic(gc));
  }

  /** The initiator completes when its first read is the responder's
      signed message from the peer and the rest goes right: it sends the
      Start once, then its response, and holds the secret agreed with the
      responder's key. */
  lemma ClientCompletes(s: Suite, ska: SigningKey, skb: SigningKey, session: Bytes8, raddr: UdpAddr,
                        gc: EphemeralKey, gs: EphemeralKey, writeC: nat -> bool, tc: seq<Event>)
    requires SignatureSound(s) && AgreementSound(s)
    requires PackHandShakeMessage(s, ska, MsgSTR, StartMsg(ClientStart(session))).Ok?
    requires ServerReply(s, skb, session, gs).Ok? && ClientResponse(s, ska, session, gc).Ok?
    requires writeC(0) && writeC(1)
    requires 0 < |tc| && tc[0] == Datagram(ServerReply(s, skb, session, gs).value, raddr)
    ensures
      var r := HandShakeClient(s, ska, s.verifyKeyOf(skb), session, raddr, Some(gc), writeC, tc);
      && r.outcome == Done(Cipher(gc, s.agree(gc, s.ephemeralPublic(gs))))
      && r.used == 1
      && r.written == [PackHandShakeMessage(s, ska, MsgSTR, StartMsg(ClientStart(session))).value,
                       ClientResponse(s, ska, session, gc).value]
  {
    var pkg := PackHandShakeMessage(s, ska, MsgSTR, StartMsg(ClientStart(session))).value;
    var x := Expect(Initiator, s, s.verifyKeyOf(skb), session, raddr);
    ReplyAccepted(s, skb, session, gs, raddr);
    var hs := ScreenReply(x, tc[0].data, raddr).value;
    assert Listen(x, tc) == Got(hs, 1);
    RetryFirstRound(x, pkg, MaxTries, FirstDeadline, writeC, tc, 0);
  }

  /** The responder completes when it reads the initiator's Start and then
      its response from the same sender, and the rest goes right: it sends
      its message once and holds the secret agreed with the initiator's
      key, with the Start's sender as its peer. */
  lemma ServerCompletes(s: Suite, ska: SigningKey, skb: SigningKey, session: Bytes8, from: UdpAddr,
                        gc: EphemeralKey, gs: EphemeralKey, writeS: nat -> bool, ts: seq<Event>)
    requires SignatureSound(s) && AgreementSound(s)
    requires PackHandShakeMessage(s, ska, MsgSTR, StartMsg(ClientStart(session))).Ok?
    requires ServerReply(s, skb, session, gs).Ok? && ClientResponse(s, ska, session, gc).Ok?
    requires writeS(0)
    requires 2 <= |ts|
    requires ts[0] == Datagram(PackHandShakeMessage(s, ska, MsgSTR, StartMsg(ClientStart(session))).value, from)
    requires ts[1] == Datagram(ClientResponse(s, ska, session, gc).value, from)
    ensures
      var r := HandShakeServer(s, skb, s.verifyKeyOf(ska), None, Some(gs), writeS, ts);
      && r.outcome == Done(Established(session, from, Cipher(gs, s.agree(gs, s.ephemeralPublic(gc)))))
      && r.used == 2
      && r.written == [ServerReply(s, skb, session, gs).value]
  {
    var vk := s.verifyKeyOf(ska);
    StartAccepted(s, ska, session);
    var st := AwaitStart(s, vk, ts);
    assert st.Heard? && st.used == 1 && st.from == from && st.start.session == session;
    var pkt := ServerReply(s, skb, session, gs).value;
    var x := Expect(Responder, s, vk, session, from);
    ResponseAccepted(s, ska, session, gc, from);
    var rest := ts[1..];
    assert rest[0] == ts[1];
    var hs := ScreenResponse(x, rest[0].data, from).value;
    assert Listen(x, rest) == Got(hs, 1);
    RetryFirstRound(x, pkt, MaxTries, FirstDeadline, writeS, rest, 0);
  }

  /** A datagram `Send` produces, delivered from the peer's address to an
      endpoint holding the same key, comes out of `Recv` as the data sent. */
  lemma SendRecvRoundTrip(a: Endpoint, b: Endpoint, s: Suite, nonce: Option<Bytes12>, data: seq<byte>, from: UdpAddr)
    requires SealOpens(s)
    requires Send(a, s, nonce, true, data).Ok?
    requires b.encrypt.Some? && b.encrypt.value.shared == a.encrypt.value.shared
    requires b.raddr == Some(from)
    ensures Recv(b, s, Datagram(Send(a, s, nonce, true, data).value, from)) == Ok(Some(data))
  {
    var frame := DumpDataFrame(s, a.encrypt.value, nonce, data).value;
    var dgram := Send(a, s, nonce, true, data).value;
    assert dgram[2..] == frame;
    assert dgram[..2] == [ProtocolVer, DataFrameMsg];
    DumpLoadRoundTrip(s, a.encrypt.value, nonce, data);
    assert LoadDataFrame(s, b.encrypt.value, frame) == LoadDataFrame(s, a.encrypt.value, frame);
  }

  /** End to end: after `Connect` and `Accept` complete against each
      other, a packet the initiator sends reaches the responder's `Recv`
      intact, when it comes from the address the responder settled on. */
  lemma PingArrives(s: Suite, ska: SigningKey, vka: VerifyKey, skb: SigningKey, vkb: VerifyKey, session: Bytes8,
                    resolve: string -> Option<UdpAddr>,
                    epC: Endpoint, address: string, gc: EphemeralKey, writeC: nat -> bool, tc: seq<Event>,
                    epS: Endpoint, addressS: string, gs: EphemeralKey, writeS: nat -> bool, ts: seq<Event>,
                    nonce: Bytes12, data: seq<byte>, from: UdpAddr)
    requires AgreementSound(s) && SealLength(s) && SealOpens(s)
    requires SignedKeysAre(s, vkb, tc, s.ephemeralPublic(gs))
    requires SignedKeysAre(s, vka, ts, s.ephemeralPublic(gc))
    requires address != "" && addressS != ""
    requires Connect(epC, s, ska, address, resolve, vkb, session, Some(gc), writeC, tc).1.Done?
    requires Accept(epS, s, skb, addressS, resolve, vka, Some(gs), writeS, ts).1.Done?
    requires 0 < |HandShakeServer(s, skb, vka, resolve(addressS), Some(gs), writeS, ts).written|
    requires Accept(epS, s, skb, addressS, resolve, vka, Some(gs), writeS, ts).0.raddr == Some(from)
    requires |data| + DataFrameCipherTextOffset + 2 <= ReadBufferSize
    ensures
      var a := Connect(epC, s, ska, address, resolve, vkb, session, Some(gc), writeC, tc).0;
      var b := Accept(epS, s, skb, addressS, resolve, vka, Some(gs), writeS, ts).0;
      && Send(a, s, Some(nonce), true, data).Ok?
      && Recv(b, s, Datagram(Send(a, s, Some(nonce), true, data).value, from)) == Ok(Some(data))
  {
    assert resolve(address).Some? && resolve(addressS).Some?;
    var cl := HandShakeClient(s, ska, vkb, session, resolve(address).value, Some(gc), writeC, tc);
    var sv := HandShakeServer(s, skb, vka, resolve(addressS), Some(gs), writeS, ts);
    HandshakesAgree(s, ska, vka, skb, vkb, session, resolve(address).value, resolve(addressS), gc, gs, writeC, writeS, tc, ts);
    var a := Connect(epC, s, ska, address, resolve, vkb, session, Some(gc), writeC, tc).0;
    var b := Accept(epS, s, skb, addressS, resolve, vka, Some(gs), writeS, ts).0;
    assert a.encrypt == Some(cl.outcome.value);
    assert b.encrypt == Some(sv.outcome.value.encrypt);
    KeyedPing(a, b, s, nonce, data, from);
  }

  /** Two endpoints holding the same 32-byte key: a packet that fits in a
      datagram goes out of one and comes out of the other's `Recv`. */
  lemma KeyedPing(a: Endpoint, b: Endpoint, s: Suite, nonce: Bytes12, data: seq<byte>, from: UdpAddr)
    requires SealLength(s) && SealOpens(s)
    requires a.encrypt.Some? && a.encrypt.value.shared.Some? && |a.encrypt.value.shared.value| == 32
    requires b.encrypt.Some? && b.encrypt.value.shared == a.encrypt.value.shared
    requires b.raddr == Some(from)
    requires |data| + DataFrameCipherTextOffset + 2 <= ReadBufferSize
    ensures Send(a, s, Some(nonce), true, data).Ok?
    ensures Recv(b, s, Datagram(Send(a, s, Some(nonce), true, data).value, from)) == Ok(Some(data))
  {
    DumpLength(s, a.encrypt.value, Some(nonce), data);
    SendRecvRoundTrip(a, b, s, Some(nonce), data, from);
  }
}
