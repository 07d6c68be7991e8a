/**
 The relay of server.go: the Start handler (`handleSTR`), the client
 response handler (`handleCHS`), data-frame forwarding (`routeMsg`) and one
 iteration of the dispatch loop in `ListenAndServe`.

 Each datagram arrives as an `IOMessage` holding a fresh, zero-filled
 2048-byte buffer, as the reader goroutine builds it. Randomness (new
 ephemeral keys, nonces) and the clock come in as an `Entropy` value.
 */
module Relay {
  import opened Bytes
  import opened Outcomes
  import opened Net
  import opened Crypto
  import opened Handshake
  import opened DataFrame
  import opened Registry

  const BufferSize: nat := 2048

  /** `IOMessage`: sender (or destination) address, byte count, buffer. */
  datatype IOMessage = IOMessage(addr: UdpAddr, n: nat, buffer: seq<byte>)

  /** The shape of a message as the reader goroutine hands it over: a
      2048-byte buffer whose bytes beyond `n` are zero. */
  ghost predicate Fresh(msg: IOMessage)
  {
    && |msg.buffer| == BufferSize
    && msg.n <= BufferSize
    && forall i | msg.n <= i < BufferSize :: msg.buffer[i] == 0
  }

  /** The reader goroutine of `createRcv`: the datagram copied into a new
      zeroed buffer. */
  function Receive(addr: UdpAddr, data: seq<byte>): (msg: IOMessage)
    requires |data| <= BufferSize
    ensures Fresh(msg)
    ensures msg.addr == addr && msg.n == |data| && msg.buffer[..msg.n] == data
  {
    IOMessage(addr, |data|, data + Zeros(BufferSize - |data|))
  }

  /** Collaborators of the relay that the model leaves abstract: the
      suite, the relay's own signing key, and whatever `ipv4.ParseHeader`
      checks beyond the minimum header length. */
  datatype Env = Env(suite: Suite, signKey: SigningKey, headerAccepted: seq<byte> -> bool)

  /** What one iteration draws from the outside world: the result of
      ephemeral key generation, a fresh nonce, and the current time. */
  datatype Entropy = Entropy(ephemeral: Option<EphemeralKey>, nonce: Option<Bytes12>, now: nat)

  /** Minimum IPv4 header length, section 3.1 of RFC 791. */
  const IPv4HeaderLen: nat := 20

  /** `ipv4.ParseHeader`, reduced to what `routeMsg` uses: the destination
      address, octets 16 to 19 of the header. */
  function ParseHeader(env: Env, b: seq<byte>): (r: Result<IP>)
    ensures r.Ok? <==> |b| >= IPv4HeaderLen && env.headerAccepted(b)
    ensures r.Ok? ==> To4(r.value) == Some(b[16..20])
    ensures r.Err? ==> r.error == RouteInvalidEncapsulated
  {
    if |b| < IPv4HeaderLen || !env.headerAccepted(b) then Err(RouteInvalidEncapsulated)
    else
      To4OfIPv4(b[16], b[17], b[18], b[19]);
      assert b[16..20] == [b[16], b[17], b[18], b[19]];
      Ok(IPv4(b[16], b[17], b[18], b[19]))
  }

  /** A handler's result: the table after the call and either the message
      to queue or the error it returned. */
  datatype Handled = Handled(table: ConnTable, reply: Result<IOMessage>)

  /** The Start body as `handleSTR` hands it to `load`: everything after the
      header, up to the end of the 2048-byte buffer, not up to `n`. */
  function StartBody(msg: IOMessage): (body: seq<byte>)
    requires |msg.buffer| == BufferSize
    ensures |body| == BufferSize - 2 && body == msg.buffer[2..]
  {
    msg.buffer[2..]
  }

  /** The connection a Start names: the one filed under the first four
      body bytes, looked up before any signature is checked. */
  function StartTarget(t: ConnTable, msg: IOMessage): (r: Result<ConnId>)
    requires Linked(t) && |msg.buffer| == BufferSize
    ensures r.Ok? ==> r.value in t.conns
    ensures r.Ok? <==> BigEndianUint32(msg.buffer[2..6]) in t.private
  {
    assert StartBody(msg)[..4] == msg.buffer[2..6];
    GetConnectionByPrivate(t, ExtractIP(StartBody(msg)))
  }

  /** A Start that passes `handleSTR`'s checks: it names a record that
      has a public key, and verifies under that key. */
  predicate StartVerifies(env: Env, t: ConnTable, msg: IOMessage)
    requires Linked(t) && |msg.buffer| == BufferSize
  {
    && StartTarget(t, msg).Ok?
    && t.conns[StartTarget(t, msg).value].publicKey.Some?
    && LoadStart(env.suite, t.conns[StartTarget(t, msg).value].publicKey.value, StartBody(msg)).Ok?
  }

  /** The handshake message the relay answers a Start with: the session
      id and the new ephemeral key, signed with the relay's own key. */
  function SignedReply(env: Env, session: Bytes8, eph: EphemeralKey): Result<seq<byte>>
  {
    PackHandShakeMessage(env.suite, env.signKey, MsgSHS, KeyMsg(HandShake(session, env.suite.ephemeralPublic(eph), Zeros(64))))
  }

  /** `handleSTR`. */
  function HandleSTR(env: Env, t: ConnTable, e: Entropy, msg: IOMessage): (h: Handled)
    requires Linked(t) && |msg.buffer| == BufferSize
    ensures Linked(h.table)
    // An unknown address or a missing key: error, nothing changes.
    ensures StartTarget(t, msg).Err? ==> h == Handled(t, Err(StartPrivateNotFound))
    ensures StartTarget(t, msg).Ok? && t.conns[StartTarget(t, msg).value].publicKey.None? ==>
              h == Handled(t, Err(StartPublicKeyNotFound))
    // A bad signature: error, nothing changes.
    ensures StartTarget(t, msg).Ok? && t.conns[StartTarget(t, msg).value].publicKey.Some?
            && LoadStart(env.suite, t.conns[StartTarget(t, msg).value].publicKey.value, StartBody(msg)).Err? ==>
              h == Handled(t, Err(StartLoading))
    // Key generation failing after a verified Start drops the record's
    // cipher and changes nothing else.
    ensures h.reply == Err(StartCreatingCipher) <==>
      && StartTarget(t, msg).Ok? && t.conns[StartTarget(t, msg).value].publicKey.Some?
      && LoadStart(env.suite, t.conns[StartTarget(t, msg).value].publicKey.value, StartBody(msg)).Ok?
      && e.ephemeral.None?
    ensures h.reply == Err(StartCreatingCipher) ==>
      var id := StartTarget(t, msg).value;
      h.table == Store(t, id, t.conns[id].(encrypt := None))
    // Success: from any prior state, bound to the sender, reply to the sender.
    ensures h.reply.Ok? ==> StartTarget(t, msg).Ok? && StartTarget(t, msg).value in h.table.conns
    ensures h.reply.Ok? ==>
      var id := StartTarget(t, msg).value;
      var c := h.table.conns[id];
      && c.state == HandShakeServerSent
      && c.session == msg.buffer[6..14]
      && c.pubAddr == Some(msg.addr)
      && c.mtime == e.now
      && e.ephemeral.Some? && c.encrypt == Some(Cipher(e.ephemeral.value, None))
      && c.publicKey == t.conns[id].publicKey && c.priAddr == t.conns[id].priAddr
      && h.table.public == t.public[AddrString(msg.addr) := id]
      && h.table.private == t.private
      && h.table.conns == t.conns[id := c]
      && h.reply.value.addr == msg.addr
      && h.reply.value.n == 2 + SizeXHS
      && |h.reply.value.buffer| == BufferSize
      && h.reply.value.buffer[0] == ProtocolVer && h.reply.value.buffer[1] == MsgSHS
    // A verified Start is answered exactly when a key is generated and the
    // answer can be signed; the datagram is that signed message.
    ensures h.reply.Ok? <==> (
      && StartVerifies(env, t, msg)
      && e.ephemeral.Some?
      && SignedReply(env, msg.buffer[6..14], e.ephemeral.value).Ok?)
    ensures h.reply == Err(StartImpossiblePack) <==> (
      && StartVerifies(env, t, msg)
      && e.ephemeral.Some?
      && SignedReply(env, msg.buffer[6..14], e.ephemeral.value).Err?)
    ensures h.reply.Ok? ==>
      h.reply.value.buffer[..h.reply.value.n] == SignedReply(env, msg.buffer[6..14], e.ephemeral.value).value
    // An answer that cannot be signed unbinds the record and drops its cipher.
    ensures h.reply == Err(StartImpossiblePack) ==>
      var id := StartTarget(t, msg).value;
      h.table == Store(t, id, t.conns[id].(session := Zeros(8), encrypt := None, pubAddr := None))
  {
    var body := StartBody(msg);
    match StartTarget(t, msg)
    case Err(_) => Handled(t, Err(StartPrivateNotFound))
    case Ok(id) =>
      var conn := t.conns[id];
      if conn.publicKey.None? then Handled(t, Err(StartPublicKeyNotFound))
      else match LoadStart(env.suite, conn.publicKey.value, body)
      case Err(_) => Handled(t, Err(StartLoading))
      case Ok(start) =>
        StartSession(env.suite, conn.publicKey.value, msg);
        Rebind(env, t, e, msg, id, start.session)
  }

  /** A verified Start carries the session id found at bytes 6 to 13 of
      the buffer. */
  lemma StartSession(s: Suite, pk: VerifyKey, msg: IOMessage)
    requires |msg.buffer| == BufferSize
    requires LoadStart(s, pk, StartBody(msg)).Ok?
    ensures LoadStart(s, pk, StartBody(msg)).value.session == msg.buffer[6..14]
  {
    var start := LoadStart(s, pk, StartBody(msg)).value;
    assert (start.ip + start.session + start.signature)[4..12] == start.session;
    assert StartBody(msg)[..SizeSTR][4..12] == msg.buffer[6..14];
  }

  /** The second half of `handleSTR`, once the Start for record `id` has
      verified: a fresh cipher, the session id and the sender's address
      are recorded, and the signed handshake message is the reply. */
  function Rebind(env: Env, t: ConnTable, e: Entropy, msg: IOMessage, id: ConnId, session: Bytes8): (h: Handled)
    requires Linked(t) && id in t.conns && |msg.buffer| == BufferSize
    ensures Linked(h.table)
    ensures h.reply == Err(StartCreatingCipher) <==> e.ephemeral.None?
    ensures h.reply == Err(StartCreatingCipher) ==> h.table == Store(t, id, t.conns[id].(encrypt := None))
    ensures h.reply.Ok? ==> id in h.table.conns
    ensures h.reply.Ok? ==>
      var c := h.table.conns[id];
      && c.state == HandShakeServerSent
      && c.session == session
      && c.pubAddr == Some(msg.addr)
      && c.mtime == e.now
      && e.ephemeral.Some? && c.encrypt == Some(Cipher(e.ephemeral.value, None))
      && c.publicKey == t.conns[id].publicKey && c.priAddr == t.conns[id].priAddr
      && h.table.public == t.public[AddrString(msg.addr) := id]
      && h.table.private == t.private
      && h.table.conns == t.conns[id := c]
      && h.reply.value.addr == msg.addr
      && h.reply.value.n == 2 + SizeXHS
      && |h.reply.value.buffer| == BufferSize
      && h.reply.value.buffer[0] == ProtocolVer && h.reply.value.buffer[1] == MsgSHS
    ensures h.reply.Ok? <==> e.ephemeral.Some? && SignedReply(env, session, e.ephemeral.value).Ok?
    // An answer that cannot be signed unbinds the record and drops its cipher.
    ensures h.reply == Err(StartImpossiblePack) <==> e.ephemeral.Some? && SignedReply(env, session, e.ephemeral.value).Err?
    ensures h.reply == Err(StartImpossiblePack) ==>
      h.table == Store(t, id, t.conns[id].(session := Zeros(8), encrypt := None, pubAddr := None))
    ensures h.reply.Ok? ==> h.reply.value.buffer[..h.reply.value.n] == SignedReply(env, session, e.ephemeral.value).value
  {
    var conn := t.conns[id];
    match NewCipher(e.ephemeral)
    case Err(_) => Handled(Store(t, id, conn.(encrypt := None)), Err(StartCreatingCipher))
    case Ok(cipher) =>
      var conn1 := conn.(encrypt := Some(cipher), session := session, pubAddr := Some(msg.addr));
      var hsmsg := HandShake(session, PublicKey(env.suite, cipher), Zeros(64));
      match PackHandShakeMessage(env.suite, env.signKey, MsgSHS, KeyMsg(hsmsg))
      case Err(_) =>
        Handled(Store(t, id, conn1.(session := Zeros(8), encrypt := None, pubAddr := None)), Err(StartImpossiblePack))
      case Ok(data) =>
        var conn2 := conn1.(state := HandShakeServerSent, mtime := e.now);
        var t' := AddPublic(Store(t, id, conn2), msg.addr, id);
        Handled(t', Ok(msg.(buffer := CopyInto(msg.buffer, data), n := |data|)))
  }

  /** The key a client response carries, read straight from the buffer. */
  function ResponseKey(msg: IOMessage): (epk: seq<byte>)
    requires |msg.buffer| == BufferSize
    ensures |epk| == XhsSigOffset - XhsEPKOffset
  {
    msg.buffer[2 + XhsEPKOffset..2 + XhsSigOffset]
  }

  /** A client response that passes `handleCHS`'s checks: the sender is
      bound and awaiting it, and the message verifies under the record's
      key and carries the record's session id. */
  predicate ResponseVerifies(env: Env, t: ConnTable, msg: IOMessage)
    requires Linked(t) && |msg.buffer| == BufferSize
  {
    && GetConnectionByPublic(t, msg.addr).Ok?
    && (var c := t.conns[GetConnectionByPublic(t, msg.addr).value];
        && c.state == HandShakeServerSent
        && c.publicKey.Some?
        && LoadHandShake(env.suite, c.publicKey.value, msg.buffer[2..]).Ok?
        && LoadHandShake(env.suite, c.publicKey.value, msg.buffer[2..]).value.session == c.session)
  }

  /** `handleCHS`. `Panic` stands for the nil dereference Go performs when
      the record has no cipher. */
  function HandleCHS(env: Env, t: ConnTable, msg: IOMessage): (r: Result<ConnTable>)
    requires Linked(t) && |msg.buffer| == BufferSize
    ensures r.Ok? ==> Linked(r.value)
    ensures GetConnectionByPublic(t, msg.addr).Err? ==> r == Err(ClientPublicNotFound)
    ensures GetConnectionByPublic(t, msg.addr).Ok? && t.conns[GetConnectionByPublic(t, msg.addr).value].state != HandShakeServerSent ==>
              r == Err(ClientWrongState)
    // Ready is reached only through a verified response with the bound
    // session id and a successful key agreement; only state and cipher change.
    ensures r.Ok? ==>
      var id := GetConnectionByPublic(t, msg.addr).value;
      var c := t.conns[id];
      && GetConnectionByPublic(t, msg.addr).Ok?
      && c.state == HandShakeServerSent
      && c.publicKey.Some?
      && LoadHandShake(env.suite, c.publicKey.value, msg.buffer[2..]).Ok?
      && LoadHandShake(env.suite, c.publicKey.value, msg.buffer[2..]).value.session == c.session
      && c.encrypt.Some?
      && env.suite.agree(c.encrypt.value.ephemeral, msg.buffer[2 + XhsEPKOffset..2 + XhsSigOffset]).Some?
      && r.value == Store(t, id, c.(state := ConnectionReady,
                                    encrypt := Some(c.encrypt.value.(shared := env.suite.agree(c.encrypt.value.ephemeral, msg.buffer[2 + XhsEPKOffset..2 + XhsSigOffset])))))
    ensures r.Err? && r.error == Panic ==>
      GetConnectionByPublic(t, msg.addr).Ok? && t.conns[GetConnectionByPublic(t, msg.addr).value].encrypt.None?
    // Each outcome, exactly when it happens.
    ensures r == Err(ClientInvalidSession) <==> (
      && GetConnectionByPublic(t, msg.addr).Ok?
      && t.conns[GetConnectionByPublic(t, msg.addr).value].state == HandShakeServerSent
      && !ResponseVerifies(env, t, msg))
    ensures r == Err(Panic) <==>
      ResponseVerifies(env, t, msg) && t.conns[GetConnectionByPublic(t, msg.addr).value].encrypt.None?
    ensures ResponseVerifies(env, t, msg) && t.conns[GetConnectionByPublic(t, msg.addr).value].encrypt.Some? ==>
      var c := t.conns[GetConnectionByPublic(t, msg.addr).value].encrypt.value;
      && (r.Ok? <==> env.suite.agree(c.ephemeral, ResponseKey(msg)).Some?)
      && (r == Err(ClientSharedSecret) <==> env.suite.agree(c.ephemeral, ResponseKey(msg)).None?)
  {
    match GetConnectionByPublic(t, msg.addr)
    case Err(_) => Err(ClientPublicNotFound)
    case Ok(id) =>
      var conn := t.conns[id];
      if conn.state != HandShakeServerSent then Err(ClientWrongState)
      else if conn.publicKey.None? then Err(ClientInvalidSession)
      else match LoadHandShake(env.suite, conn.publicKey.value, msg.buffer[2..])
      case Err(_) => Err(ClientInvalidSession)
      case Ok(hs) =>
        if hs.session != conn.session then Err(ClientInvalidSession)
        else match conn.encrypt
        case None => Err(Panic)
        case Some(c) =>
          assert hs.epk == msg.buffer[2 + XhsEPKOffset..2 + XhsSigOffset] by {
            assert (hs.session + hs.epk + hs.signature)[XhsEPKOffset..XhsSigOffset] == hs.epk;
            assert msg.buffer[2..][..SizeXHS][XhsEPKOffset..XhsSigOffset] == msg.buffer[2 + XhsEPKOffset..2 + XhsSigOffset];
          }
          match SharedSecret(env.suite, c, hs.epk)
          case Err(_) => Err(ClientSharedSecret)
          case Ok(c') => Ok(Store(t, id, conn.(encrypt := Some(c'), state := ConnectionReady)))
  }

  /** The sender of a data frame, found by its public address, is Ready
      and holds a cipher. */
  predicate SenderReady(t: ConnTable, msg: IOMessage)
    requires Linked(t)
  {
    && GetConnectionByPublic(t, msg.addr).Ok?
    && t.conns[GetConnectionByPublic(t, msg.addr).value].state == ConnectionReady
    && t.conns[GetConnectionByPublic(t, msg.addr).value].encrypt.Some?
  }

  /** The frame `buffer[2:n]` opened under the ready sender's cipher. */
  function Opened(env: Env, t: ConnTable, msg: IOMessage): Result<seq<byte>>
    requires Linked(t) && SenderReady(t, msg) && 2 <= msg.n <= |msg.buffer|
  {
    LoadDataFrame(env.suite, t.conns[GetConnectionByPublic(t, msg.addr).value].encrypt.value, msg.buffer[2..msg.n])
  }

  /** The inbound half of `routeMsg`: the sender, found by public address,
      must be Ready with a cipher; the frame must open under that cipher and
      carry an IPv4 header. Yields the sender, the packet and its destination. */
  function Inbound(env: Env, t: ConnTable, msg: IOMessage): (r: Result<(ConnId, seq<byte>, IP)>)
    requires Linked(t) && 2 <= msg.n <= |msg.buffer|
    // Each check has its own error, in the order the code makes them.
    ensures r == Err(RouteInvalidState) <==> !SenderReady(t, msg)
    ensures SenderReady(t, msg) ==> (r == Err(RouteInvalidMessage) <==> Opened(env, t, msg).Err?)
    ensures SenderReady(t, msg) && Opened(env, t, msg).Ok? ==>
              (r == Err(RouteInvalidEncapsulated) <==> ParseHeader(env, Opened(env, t, msg).value).Err?)
    ensures r.Ok? <==> (
      && SenderReady(t, msg)
      && Opened(env, t, msg).Ok?
      && ParseHeader(env, Opened(env, t, msg).value).Ok?)
    ensures r.Ok? ==>
      var sid := r.value.0;
      && GetConnectionByPublic(t, msg.addr) == Ok(sid)
      && t.conns[sid].state == ConnectionReady
      && t.conns[sid].encrypt.Some?
      && LoadDataFrame(env.suite, t.conns[sid].encrypt.value, msg.buffer[2..msg.n]) == Ok(r.value.1)
      && ParseHeader(env, r.value.1) == Ok(r.value.2)
    ensures r.Err? ==> r.error in {RouteInvalidState, RouteInvalidMessage, RouteInvalidEncapsulated}
  {
    match GetConnectionByPublic(t, msg.addr)
    case Err(_) => Err(RouteInvalidState)
    case Ok(sid) =>
      var sender := t.conns[sid];
      if sender.state != ConnectionReady || sender.encrypt.None? then Err(RouteInvalidState)
      else match LoadDataFrame(env.suite, sender.encrypt.value, msg.buffer[2..msg.n])
      case Err(_) => Err(RouteInvalidMessage)
      case Ok(b) =>
        match ParseHeader(env, b)
        case Err(e) => Err(e)
        case Ok(dst) => Ok((sid, b, dst))
  }

  /** The receive buffer after `loadDataFrame` has read the frame
      `buffer[2:n]`. Moving the tag behind the ciphertext appends to a slice
      of the receive buffer itself: while the 16 tag bytes fit below the
      buffer's end, `append` writes them in place at [n, n+16), past the
      datagram. A frame too short to load leaves the buffer alone, and so
      does one that ends within 16 bytes of the buffer's end, for which
      `append` allocates. */
  function AfterLoad(msg: IOMessage): (m: IOMessage)
    requires 2 <= msg.n <= |msg.buffer| == BufferSize
    ensures m.addr == msg.addr && m.n == msg.n && |m.buffer| == BufferSize
    ensures m.buffer[..msg.n] == msg.buffer[..msg.n]
    ensures DataFrameCipherTextOffset + 2 <= msg.n && msg.n + DataFrameTagSize <= BufferSize ==>
              && m.buffer[msg.n..msg.n + DataFrameTagSize] == msg.buffer[2 + DataFrameTagOffset..2 + DataFrameCipherTextOffset]
              && m.buffer[msg.n + DataFrameTagSize..] == msg.buffer[msg.n + DataFrameTagSize..]
    ensures msg.n < DataFrameCipherTextOffset + 2 || BufferSize < msg.n + DataFrameTagSize ==> m == msg
  {
    if msg.n < DataFrameCipherTextOffset + 2 || BufferSize < msg.n + DataFrameTagSize then msg
    else
      var tag := msg.buffer[2 + DataFrameTagOffset..2 + DataFrameCipherTextOffset];
      msg.(buffer := msg.buffer[..msg.n] + tag + msg.buffer[msg.n + DataFrameTagSize..])
  }

  /** A connection that can receive forwarded traffic. */
  predicate Deliverable(c: Connection)
  {
    c.state == ConnectionReady && c.encrypt.Some? && c.pubAddr.Some?
  }

  /** The destination record `dst` is filed under, when it can receive
      traffic, and the packet sealed for it. */
  predicate Routable(env: Env, t: ConnTable, e: Entropy, b: seq<byte>, dst: IP)
    requires Linked(t)
  {
    && GetConnectionByPrivate(t, dst).Ok?
    && Deliverable(t.conns[GetConnectionByPrivate(t, dst).value])
    && DumpDataFrame(env.suite, t.conns[GetConnectionByPrivate(t, dst).value].encrypt.value, e.nonce, b).Ok?
  }

  /** `routeMsg`. */
  function RouteMsg(env: Env, t: ConnTable, e: Entropy, msg: IOMessage): (h: Handled)
    requires Linked(t) && 2 <= msg.n <= |msg.buffer| == BufferSize
    ensures Linked(h.table)
    // Before the packet is opened and parsed, nothing changes.
    ensures Inbound(env, t, msg).Err? ==> h == Handled(t, Err(Inbound(env, t, msg).error))
    // After that, the only change is the sender's activity time.
    ensures Inbound(env, t, msg).Ok? ==>
      var sid := Inbound(env, t, msg).value.0;
      h.table == Store(t, sid, t.conns[sid].(mtime := e.now))
    // A datagram goes out exactly when the packet opened and parsed and its
    // destination is deliverable and can be sealed for.
    ensures h.reply.Ok? <==> (
      && Inbound(env, t, msg).Ok?
      && Routable(env, h.table, e, Inbound(env, t, msg).value.1, Inbound(env, t, msg).value.2))
    // It goes to the destination's public address, as a data frame sealed
    // under the destination's cipher, written over the receive buffer as
    // `loadDataFrame` left it.
    ensures h.reply.Ok? ==>
      var packet := Inbound(env, t, msg).value.1;
      var dst := Inbound(env, t, msg).value.2;
      var did := GetConnectionByPrivate(h.table, dst).value;
      var d := h.table.conns[did];
      var frame := DumpDataFrame(env.suite, d.encrypt.value, e.nonce, packet).value;
      && h.reply.value.addr == d.pubAddr.value
      && h.reply.value.n == |frame| + 2
      && |h.reply.value.buffer| == BufferSize
      && h.reply.value.buffer[..2] == [ProtocolVer, MsgDFE]
      && h.reply.value.buffer[2..] == CopyInto(AfterLoad(msg).buffer[2..], frame)
  {
    match Inbound(env, t, msg)
    case Err(err) => Handled(t, Err(err))
    case Ok((sid, b, dst)) =>
      Reseal(env, Store(t, sid, t.conns[sid].(mtime := e.now)), e, AfterLoad(msg), b, dst)
  }

  /** The second half of `routeMsg`: the opened packet `b`, addressed to
      `dst`, is sealed for the destination and written over the buffer. */
  function Reseal(env: Env, t: ConnTable, e: Entropy, msg: IOMessage, b: seq<byte>, dst: IP): (h: Handled)
    requires Linked(t) && 2 <= msg.n <= |msg.buffer| == BufferSize
    ensures h.table == t
    ensures h.reply.Ok? <==> Routable(env, t, e, b, dst)
    ensures h.reply == Err(RouteNoRouteToHost) <==>
      !(GetConnectionByPrivate(t, dst).Ok? && Deliverable(t.conns[GetConnectionByPrivate(t, dst).value]))
    ensures h.reply.Err? ==> h.reply.error in {RouteNoRouteToHost, RouteImpossibleDump}
    ensures h.reply.Ok? ==>
      var d := t.conns[GetConnectionByPrivate(t, dst).value];
      var frame := DumpDataFrame(env.suite, d.encrypt.value, e.nonce, b).value;
      && h.reply.value.addr == d.pubAddr.value
      && h.reply.value.n == |frame| + 2
      && |h.reply.value.buffer| == BufferSize
      && h.reply.value.buffer[..2] == [ProtocolVer, MsgDFE]
      && h.reply.value.buffer[2..] == CopyInto(msg.buffer[2..], frame)
  {
    match GetConnectionByPrivate(t, dst)
    case Err(_) => Handled(t, Err(RouteNoRouteToHost))
    case Ok(did) =>
      var d := t.conns[did];
      if !Deliverable(d) then Handled(t, Err(RouteNoRouteToHost))
      else match DumpDataFrame(env.suite, d.encrypt.value, e.nonce, b)
      case Err(_) => Handled(t, Err(RouteImpossibleDump))
      case Ok(tmp) =>
        var buffer := [ProtocolVer, MsgDFE] + CopyInto(msg.buffer[2..], tmp);
        assert buffer[..2] == [ProtocolVer, MsgDFE] && buffer[2..] == CopyInto(msg.buffer[2..], tmp);
        Handled(t, Ok(IOMessage(d.pubAddr.value, |tmp| + 2, buffer)))
  }

  /** What the dispatch loop reads from the inbound queue: a datagram, or
      the reader's fatal error. */
  datatype Read = Received(msg: IOMessage) | ReadFailed

  /** The result of one loop iteration: the table, the loop's `err`
      variable (logged when it is set), and the message queued for the
      writer; or the loop ends (fatal read error) or the process panics. */
  datatype Step = Continue(table: ConnTable, err: Option<Error>, send: Option<IOMessage>) | Exit | Crash

  function ErrorOf<T>(r: Result<T>): Option<Error>
  {
    if r.Err? then Some(r.error) else None
  }

  function ValueOf<T>(r: Result<T>): Option<T>
  {
    if r.Ok? then Some(r.value) else None
  }

  /** One iteration of `ListenAndServe`. `err` is the loop's error variable
      as the previous iteration left it. */
  function Dispatch(env: Env, t: ConnTable, err: Option<Error>, e: Entropy, read: Read): (s: Step)
    requires Linked(t)
    requires read.Received? ==> Fresh(read.msg)
    ensures s.Continue? ==> Linked(s.table)
    ensures read.ReadFailed? <==> s.Exit?
    // Wrong version: dropped, nothing changes and nothing new is logged.
    ensures read.Received? && read.msg.buffer[0] != ProtocolVer ==> s == Continue(t, err, None)
    // A type outside {Start, ClientResponse, DataFrame}: the message is
    // queued back unchanged to its sender and `err` carries over.
    ensures read.Received? && read.msg.buffer[0] == ProtocolVer && read.msg.buffer[1] !in {MsgSTR, MsgCHS, MsgDFE} ==>
              s == Continue(t, err, Some(read.msg))
    // A client response never produces a datagram.
    ensures read.Received? && read.msg.buffer[0] == ProtocolVer && read.msg.buffer[1] == MsgCHS && s.Continue? ==>
              s.send.None?
    // Only a data frame can produce a datagram for someone other than the sender.
    ensures read.Received? && s.Continue? && s.send.Some? && s.send.value.addr != read.msg.addr ==>
              read.msg.buffer[1] == MsgDFE
    ensures s.Crash? ==> read.Received? && read.msg.buffer[1] == MsgCHS
    ensures s.Continue? && s.send.Some? ==> |s.send.value.buffer| == BufferSize
    // Each known type reaches its handler, whose error replaces `err` and
    // whose reply, if any, is the one datagram queued.
    ensures read.Received? && read.msg.buffer[0] == ProtocolVer && read.msg.buffer[1] == MsgSTR ==>
              var h := HandleSTR(env, t, e, read.msg);
              s == Continue(h.table, ErrorOf(h.reply), ValueOf(h.reply))
    ensures read.Received? && read.msg.buffer[0] == ProtocolVer && read.msg.buffer[1] == MsgCHS ==>
              var r := HandleCHS(env, t, read.msg);
              && (s == Crash <==> r == Err(Panic))
              && (r != Err(Panic) ==> s == Continue(if r.Ok? then r.value else t, ErrorOf(r), None))
    ensures read.Received? && read.msg.buffer[0] == ProtocolVer && read.msg.buffer[1] == MsgDFE ==>
              read.msg.n >= 2 &&
              var h := RouteMsg(env, t, e, read.msg);
              s == Continue(h.table, ErrorOf(h.reply), ValueOf(h.reply))
  {
    match read
    case ReadFailed => Exit
    case Received(msg) =>
      if msg.buffer[0] != ProtocolVer then Continue(t, err, None)
      else if msg.buffer[1] == MsgSTR then
        var h := HandleSTR(env, t, e, msg);
        Continue(h.table, ErrorOf(h.reply), ValueOf(h.reply))
      else if msg.buffer[1] == MsgCHS then
        var r := HandleCHS(env, t, msg);
        if r == Err(Panic) then Crash
        else Continue(if r.Ok? then r.value else t, ErrorOf(r), None)
      else if msg.buffer[1] == MsgDFE then
        assert msg.n >= 2 by {
          assert msg.buffer[1] != 0;
        }
        var h := RouteMsg(env, t, e, msg);
        Continue(h.table, ErrorOf(h.reply), ValueOf(h.reply))
      else Continue(t, err, Some(msg))
  }
}
