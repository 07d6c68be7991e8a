/**
 Properties of the relay across handlers and across the dispatch loop: the
 registry invariant is kept by every iteration, forwarded frames reach the
 destination intact, and the places where the relay ignores what it was
 told (the datagram length, an earlier public binding).
 */
module RelayProps {
  import opened Bytes
  import opened Outcomes
  import opened Net
  import opened Crypto
  import opened Handshake
  import opened DataFrame
  import opened Registry
  import opened Relay

  lemma HandleSTRKeepsValid(env: Env, t: ConnTable, e: Entropy, msg: IOMessage)
    requires Valid(t) && |msg.buffer| == BufferSize
    ensures Valid(HandleSTR(env, t, e, msg).table)
  {
    var h := HandleSTR(env, t, e, msg);
    if h.table != t {
      var id := StartTarget(t, msg).value;
      var conn := t.conns[id];
      var start := LoadStart(env.suite, conn.publicKey.value, StartBody(msg)).value;
      if e.ephemeral.None? {
        StoreKeepsValid(t, id, conn.(encrypt := None));
      } else {
        var cipher := NewCipher(e.ephemeral).value;
        var conn1 := conn.(encrypt := Some(cipher), session := start.session, pubAddr := Some(msg.addr));
        var hsmsg := HandShake(start.session, PublicKey(env.suite, cipher), Zeros(64));
        if PackHandShakeMessage(env.suite, env.signKey, MsgSHS, KeyMsg(hsmsg)).Err? {
          StoreKeepsValid(t, id, conn1.(session := Zeros(8), encrypt := None, pubAddr := None));
        } else {
          var conn2 := conn1.(state := HandShakeServerSent, mtime := e.now);
          StoreKeepsValid(t, id, conn2);
          AddPublicKeepsValid(Store(t, id, conn2), msg.addr, id);
        }
      }
    }
  }

  lemma HandleCHSKeepsValid(env: Env, t: ConnTable, msg: IOMessage)
    requires Valid(t) && |msg.buffer| == BufferSize
    ensures HandleCHS(env, t, msg).Ok? ==> Valid(HandleCHS(env, t, msg).value)
  {
    var r := HandleCHS(env, t, msg);
    if r.Ok? {
      var id := GetConnectionByPublic(t, msg.addr).value;
      var c := t.conns[id];
      var shared := env.suite.agree(c.encrypt.value.ephemeral, msg.buffer[2 + XhsEPKOffset..2 + XhsSigOffset]);
      StoreKeepsValid(t, id, c.(state := ConnectionReady, encrypt := Some(c.encrypt.value.(shared := shared))));
    }
  }

  lemma RouteMsgKeepsValid(env: Env, t: ConnTable, e: Entropy, msg: IOMessage)
    requires Valid(t) && 2 <= msg.n <= |msg.buffer| == BufferSize
    ensures Valid(RouteMsg(env, t, e, msg).table)
  {
    if Inbound(env, t, msg).Ok? {
      var sid := Inbound(env, t, msg).value.0;
      StoreKeepsValid(t, sid, t.conns[sid].(mtime := e.now));
    }
  }

  /** Every iteration of the dispatch loop keeps the registry invariant. */
  lemma DispatchKeepsValid(env: Env, t: ConnTable, err: Option<Error>, e: Entropy, read: Read)
    requires Valid(t)
    requires read.Received? ==> Fresh(read.msg)
    ensures Dispatch(env, t, err, e, read).Continue? ==> Valid(Dispatch(env, t, err, e, read).table)
  {
    if read.Received? {
      var msg := read.msg;
      if msg.buffer[0] == ProtocolVer {
        if msg.buffer[1] == MsgSTR {
          HandleSTRKeepsValid(env, t, e, msg);
        } else if msg.buffer[1] == MsgCHS {
          HandleCHSKeepsValid(env, t, msg);
        } else if msg.buffer[1] == MsgDFE {
          assert msg.buffer[1] != 0;
          RouteMsgKeepsValid(env, t, e, msg);
        }
      }
    }
  }

  /** How a run of the loop ended: still waiting for input, stopped on a
      read error, or crashed on a nil dereference. */
  datatype Outcome = Running | Stopped | Crashed

  /** The loop's state after a sequence of inputs and the datagrams it
      queued for the writer, in order. */
  datatype Run = Run(table: ConnTable, err: Option<Error>, sent: seq<IOMessage>, outcome: Outcome)

  /** The inputs one loop iteration consumes. */
  datatype Input = Input(entropy: Entropy, read: Read)

  ghost predicate AllFresh(inputs: seq<Input>)
  {
    forall i | 0 <= i < |inputs| :: inputs[i].read.Received? ==> Fresh(inputs[i].read.msg)
  }

  /** `ListenAndServe`'s loop over a finite sequence of inputs. */
  function Serve(env: Env, t: ConnTable, err: Option<Error>, inputs: seq<Input>): (r: Run)
    requires Linked(t) && AllFresh(inputs)
    ensures Linked(r.table)
    ensures |r.sent| <= |inputs|
    ensures forall m | m in r.sent :: |m.buffer| == BufferSize
    ensures r.outcome == Stopped ==> exists i | 0 <= i < |inputs| :: inputs[i].read.ReadFailed?
    // A read error on the first input ends the loop before anything is queued.
    ensures |inputs| > 0 && inputs[0].read.ReadFailed? ==> r == Run(t, err, [], Stopped)
    decreases |inputs|
  {
    if |inputs| == 0 then Run(t, err, [], Running)
    else match Dispatch(env, t, err, inputs[0].entropy, inputs[0].read)
    case Exit => Run(t, err, [], Stopped)
    case Crash => Run(t, err, [], Crashed)
    case Continue(t', err', send) =>
      assert AllFresh(inputs[1..]) by {
        forall i | 0 <= i < |inputs[1..]| ensures inputs[1..][i].read.Received? ==> Fresh(inputs[1..][i].read.msg) {
          assert inputs[1..][i] == inputs[i + 1];
        }
      }
      var rest := Serve(env, t', err', inputs[1..]);
      assert rest.outcome == Stopped ==> exists i | 0 <= i < |inputs| :: inputs[i].read.ReadFailed? by {
        if rest.outcome == Stopped {
          var j :| 0 <= j < |inputs[1..]| && inputs[1..][j].read.ReadFailed?;
          assert inputs[j + 1].read.ReadFailed?;
        }
      }
      Run(rest.table, rest.err, (if send.Some? then [send.value] else []) + rest.sent, rest.outcome)
  }

  /** The registry invariant holds after any number of iterations. */
  lemma {:induction false} ServeKeepsValid(env: Env, t: ConnTable, err: Option<Error>, inputs: seq<Input>)
    requires Valid(t) && AllFresh(inputs)
    ensures Valid(Serve(env, t, err, inputs).table)
    decreases |inputs|
  {
    if |inputs| > 0 {
      var s := Dispatch(env, t, err, inputs[0].entropy, inputs[0].read);
      DispatchKeepsValid(env, t, err, inputs[0].entropy, inputs[0].read);
      if s.Continue? {
        assert AllFresh(inputs[1..]) by {
          forall i | 0 <= i < |inputs[1..]| ensures inputs[1..][i].read.Received? ==> Fresh(inputs[1..][i].read.msg) {
            assert inputs[1..][i] == inputs[i + 1];
          }
        }
        ServeKeepsValid(env, s.table, s.err, inputs[1..]);
      }
    }
  }

  lemma AllFreshTail(inputs: seq<Input>, k: nat)
    requires k <= |inputs| && AllFresh(inputs)
    ensures AllFresh(inputs[k..]) && AllFresh(inputs[..k])
  {
    forall i | 0 <= i < |inputs[k..]| ensures inputs[k..][i].read.Received? ==> Fresh(inputs[k..][i].read.msg) {
      assert inputs[k..][i] == inputs[i + k];
    }
    forall i | 0 <= i < |inputs[..k]| ensures inputs[..k][i].read.Received? ==> Fresh(inputs[..k][i].read.msg) {
      assert inputs[..k][i] == inputs[i];
    }
  }

  /** A read error anywhere in the inputs ends the loop: the run is never
      still waiting after it. */
  lemma {:induction false} ReadErrorEndsRun(env: Env, t: ConnTable, err: Option<Error>, inputs: seq<Input>, i: nat)
    requires Linked(t) && AllFresh(inputs)
    requires i < |inputs| && inputs[i].read.ReadFailed?
    ensures Serve(env, t, err, inputs).outcome != Running
    decreases |inputs|
  {
    var s := Dispatch(env, t, err, inputs[0].entropy, inputs[0].read);
    if s.Continue? {
      assert i != 0;
      AllFreshTail(inputs, 1);
      assert inputs[1..][i - 1] == inputs[i];
      ReadErrorEndsRun(env, s.table, s.err, inputs[1..], i - 1);
    }
  }

  /** The loop is the iteration of `Dispatch`: a run over `inputs` that is
      still going after its first `k` inputs continues from the table and
      error those left, and queues what they queued followed by the rest. */
  lemma {:induction false} ServeSplit(env: Env, t: ConnTable, err: Option<Error>, inputs: seq<Input>, k: nat)
    requires Linked(t) && AllFresh(inputs) && k <= |inputs|
    requires AllFresh(inputs[..k]) && AllFresh(inputs[k..])
    requires Serve(env, t, err, inputs[..k]).outcome == Running
    ensures
      var a := Serve(env, t, err, inputs[..k]);
      var b := Serve(env, a.table, a.err, inputs[k..]);
      Serve(env, t, err, inputs) == Run(b.table, b.err, a.sent + b.sent, b.outcome)
    decreases k
  {
    if k > 0 {
      var s := Dispatch(env, t, err, inputs[0].entropy, inputs[0].read);
      var head := inputs[..k];
      var tail := inputs[1..];
      assert head[0] == inputs[0];
      RunningContinues(env, t, err, head);
      AllFreshTail(inputs, 1);
      AllFreshTail(head, 1);
      assert head[1..] == tail[..k - 1];
      assert inputs[k..] == tail[k - 1..];
      AllFreshTail(tail, k - 1);
      var a := Serve(env, t, err, head);
      var a' := Serve(env, s.table, s.err, tail[..k - 1]);
      var b := Serve(env, a'.table, a'.err, tail[k - 1..]);
      ServeCons(env, t, err, head, s);
      ServeCons(env, t, err, inputs, s);
      ServeSplit(env, s.table, s.err, tail, k - 1);
      Compose(a, a', b, Serve(env, t, err, inputs), Serve(env, s.table, s.err, tail), if s.send.Some? then [s.send.value] else []);
    }
  }

  lemma Compose(a: Run, a': Run, b: Run, whole: Run, rest: Run, first: seq<IOMessage>)
    requires a == Run(a'.table, a'.err, first + a'.sent, a'.outcome)
    requires rest == Run(b.table, b.err, a'.sent + b.sent, b.outcome)
    requires whole == Run(rest.table, rest.err, first + rest.sent, rest.outcome)
    ensures whole == Run(b.table, b.err, a.sent + b.sent, b.outcome)
  {
    assert first + (a'.sent + b.sent) == (first + a'.sent) + b.sent;
  }

  /** One input on its own: the loop runs exactly one `Dispatch` and
      queues its datagram, if any. */
  lemma ServeOne(env: Env, t: ConnTable, err: Option<Error>, inputs: seq<Input>)
    requires Linked(t) && AllFresh(inputs) && |inputs| == 1
    ensures
      var s := Dispatch(env, t, err, inputs[0].entropy, inputs[0].read);
      var r := Serve(env, t, err, inputs);
      && (s.Exit? <==> r == Run(t, err, [], Stopped))
      && (s.Crash? <==> r == Run(t, err, [], Crashed))
      && (s.Continue? ==> r == Run(s.table, s.err, if s.send.Some? then [s.send.value] else [], Running))
  {
    assert inputs[1..] == [];
  }

  /** A run still going after its inputs continued past the first one. */
  lemma RunningContinues(env: Env, t: ConnTable, err: Option<Error>, inputs: seq<Input>)
    requires Linked(t) && AllFresh(inputs) && |inputs| > 0
    requires Serve(env, t, err, inputs).outcome == Running
    ensures Dispatch(env, t, err, inputs[0].entropy, inputs[0].read).Continue?
  {
  }

  /** One iteration that continues, then the rest of the run. */
  lemma ServeCons(env: Env, t: ConnTable, err: Option<Error>, inputs: seq<Input>, s: Step)
    requires Linked(t) && AllFresh(inputs) && |inputs| > 0 && AllFresh(inputs[1..])
    requires s == Dispatch(env, t, err, inputs[0].entropy, inputs[0].read) && s.Continue?
    ensures
      var rest := Serve(env, s.table, s.err, inputs[1..]);
      Serve(env, t, err, inputs) == Run(rest.table, rest.err, (if s.send.Some? then [s.send.value] else []) + rest.sent, rest.outcome)
  {
  }

  /** A forwarded frame has the length of the frame that came in, and the
      destination, opening it with its own cipher, gets exactly the packet
      the sender sealed. */
  lemma RouteDelivers(env: Env, t: ConnTable, e: Entropy, msg: IOMessage)
    requires Linked(t) && 2 <= msg.n <= |msg.buffer| == BufferSize
    requires SealLength(env.suite) && OpenLength(env.suite) && SealOpens(env.suite)
    requires RouteMsg(env, t, e, msg).reply.Ok?
    ensures
      var h := RouteMsg(env, t, e, msg);
      var packet := Inbound(env, t, msg).value.1;
      var d := h.table.conns[GetConnectionByPrivate(h.table, Inbound(env, t, msg).value.2).value];
      && h.reply.value.n == msg.n
      && LoadDataFrame(env.suite, d.encrypt.value, h.reply.value.buffer[2..h.reply.value.n]) == Ok(packet)
  {
    var h := RouteMsg(env, t, e, msg);
    var sid := Inbound(env, t, msg).value.0;
    var packet := Inbound(env, t, msg).value.1;
    var d := h.table.conns[GetConnectionByPrivate(h.table, Inbound(env, t, msg).value.2).value];
    LoadLength(env.suite, t.conns[sid].encrypt.value, msg.buffer[2..msg.n]);
    ReplyOpens(env.suite, d.encrypt.value, e.nonce, packet, AfterLoad(msg).buffer[2..], h.reply.value);
  }

  /** The bytes `loadDataFrame` leaves past the datagram never reach the
      wire: the writer sends `buffer[:n]`, which is exactly the header and
      the new frame. */
  lemma ForwardedDatagram(env: Env, t: ConnTable, e: Entropy, msg: IOMessage)
    requires Linked(t) && 2 <= msg.n <= |msg.buffer| == BufferSize
    requires SealLength(env.suite) && OpenLength(env.suite)
    requires RouteMsg(env, t, e, msg).reply.Ok?
    ensures
      var h := RouteMsg(env, t, e, msg);
      var d := h.table.conns[GetConnectionByPrivate(h.table, Inbound(env, t, msg).value.2).value];
      h.reply.value.buffer[..h.reply.value.n]
        == [ProtocolVer, MsgDFE] + DumpDataFrame(env.suite, d.encrypt.value, e.nonce, Inbound(env, t, msg).value.1).value
  {
    var h := RouteMsg(env, t, e, msg);
    var sid := Inbound(env, t, msg).value.0;
    var packet := Inbound(env, t, msg).value.1;
    var d := h.table.conns[GetConnectionByPrivate(h.table, Inbound(env, t, msg).value.2).value];
    var frame := DumpDataFrame(env.suite, d.encrypt.value, e.nonce, packet).value;
    LoadLength(env.suite, t.conns[sid].encrypt.value, msg.buffer[2..msg.n]);
    DumpLength(env.suite, d.encrypt.value, e.nonce, packet);
    var out := h.reply.value.buffer;
    assert out[2..][..|frame|] == frame;
    assert out[..h.reply.value.n] == out[..2] + out[2..][..|frame|];
  }

  /** Forwarding happens: a frame from a Ready sender that opens to an IPv4
      packet, addressed to a deliverable host the packet can be sealed
      for, is forwarded. The sender's new activity time does not matter. */
  lemma RouteForwards(env: Env, t: ConnTable, e: Entropy, msg: IOMessage)
    requires Linked(t) && 2 <= msg.n <= |msg.buffer| == BufferSize
    requires SenderReady(t, msg)
    requires Opened(env, t, msg).Ok? && ParseHeader(env, Opened(env, t, msg).value).Ok?
    requires Routable(env, t, e, Opened(env, t, msg).value, ParseHeader(env, Opened(env, t, msg).value).value)
    ensures RouteMsg(env, t, e, msg).reply.Ok?
  {
    var sid := Inbound(env, t, msg).value.0;
    var t' := Store(t, sid, t.conns[sid].(mtime := e.now));
    var dst := Inbound(env, t, msg).value.2;
    assert GetConnectionByPrivate(t', dst) == GetConnectionByPrivate(t, dst);
    var did := GetConnectionByPrivate(t, dst).value;
    assert t'.conns[did].state == t.conns[did].state && t'.conns[did].encrypt == t.conns[did].encrypt
        && t'.conns[did].pubAddr == t.conns[did].pubAddr;
  }

  /** A reply built by copying a data frame over the old buffer tail opens,
      under the cipher that sealed it, to the packet, and is as long as
      the frame plus its header. */
  lemma ReplyOpens(s: Suite, c: Cipher, nonce: Option<Bytes12>, packet: seq<byte>, tail: seq<byte>, out: IOMessage)
    requires SealLength(s) && SealOpens(s)
    requires DumpDataFrame(s, c, nonce, packet).Ok?
    requires |packet| + DataFrameCipherTextOffset <= |tail|
    requires out.n == |DumpDataFrame(s, c, nonce, packet).value| + 2
    requires |out.buffer| >= 2 && out.buffer[2..] == CopyInto(tail, DumpDataFrame(s, c, nonce, packet).value)
    ensures out.n == |packet| + DataFrameCipherTextOffset + 2
    ensures LoadDataFrame(s, c, out.buffer[2..out.n]) == Ok(packet)
  {
    var frame := DumpDataFrame(s, c, nonce, packet).value;
    DumpLength(s, c, nonce, packet);
    assert out.buffer[2..out.n] == frame by {
      assert out.buffer[2..out.n] == out.buffer[2..][..|frame|];
    }
    DumpLoadRoundTrip(s, c, nonce, packet);
  }

  /** `handleSTR` never reads the datagram's byte count. */
  lemma HandleSTRIgnoresCount(env: Env, t: ConnTable, e: Entropy, msg: IOMessage, n: nat)
    requires Linked(t) && |msg.buffer| == BufferSize
    ensures HandleSTR(env, t, e, msg.(n := n)) == HandleSTR(env, t, e, msg)
  {
  }

  /** `handleCHS` never reads the datagram's byte count. */
  lemma HandleCHSIgnoresCount(env: Env, t: ConnTable, msg: IOMessage, n: nat)
    requires Linked(t) && |msg.buffer| == BufferSize
    ensures HandleCHS(env, t, msg.(n := n)) == HandleCHS(env, t, msg)
  {
  }

  /** The dispatch of a Start or a client response depends on the buffer,
      not on the byte count. */
  lemma DispatchIgnoresCount(env: Env, t: ConnTable, err: Option<Error>, e: Entropy, msg: IOMessage, n: nat)
    requires Linked(t) && Fresh(msg) && Fresh(msg.(n := n))
    requires msg.buffer[0] == ProtocolVer && (msg.buffer[1] == MsgSTR || msg.buffer[1] == MsgCHS)
    ensures Dispatch(env, t, err, e, Received(msg.(n := n))) == Dispatch(env, t, err, e, Received(msg))
  {
    var other := msg.(n := n);
    if msg.buffer[1] == MsgSTR {
      HandleSTRIgnoresCount(env, t, e, msg, n);
      assert Dispatch(env, t, err, e, Received(other)) == Continue(HandleSTR(env, t, e, other).table, ErrorOf(HandleSTR(env, t, e, other).reply), ValueOf(HandleSTR(env, t, e, other).reply));
    } else {
      HandleCHSIgnoresCount(env, t, msg, n);
    }
  }

  /** Zero padding of a datagram up to the buffer size does not depend on
      how many of the zeros were part of the datagram. */
  lemma ReceivePadding(addr: UdpAddr, data: seq<byte>, k: nat)
    requires |data| + k <= BufferSize
    ensures Receive(addr, data + Zeros(k)) == Receive(addr, data).(n := |data| + k)
  {
    var m1 := Receive(addr, data);
    var m2 := Receive(addr, data + Zeros(k));
    assert m1.buffer == m2.buffer by {
      assert forall i | 0 <= i < BufferSize :: m1.buffer[i] == m2.buffer[i];
    }
  }

  /** A Start or client response is judged on the whole 2048-byte buffer,
      never on the datagram's length: a short datagram is handled exactly as
      the same bytes followed by zeros. */
  lemma HandshakeLengthIgnored(env: Env, t: ConnTable, err: Option<Error>, e: Entropy, addr: UdpAddr, data: seq<byte>, k: nat)
    requires Linked(t) && 2 <= |data| && |data| + k <= BufferSize
    requires data[0] == ProtocolVer && (data[1] == MsgSTR || data[1] == MsgCHS)
    ensures Dispatch(env, t, err, e, Received(Receive(addr, data)))
         == Dispatch(env, t, err, e, Received(Receive(addr, data + Zeros(k))))
  {
    var m := Receive(addr, data);
    ReceivePadding(addr, data, k);
    assert Receive(addr, data + Zeros(k)) == m.(n := |data| + k);
    assert m.buffer[0] == data[0] && m.buffer[1] == data[1];
    DispatchIgnoresCount(env, t, err, e, m, |data| + k);
  }

  /** A successful Start from a new address binds that address but leaves
      the record's earlier public binding in place, and `close`, which only
      removes the binding named by the record's current address, leaves it
      there too: the old address keeps reaching the record. */
  lemma StaleBindingSurvivesClose(env: Env, t: ConnTable, e: Entropy, msg: IOMessage, previous: UdpAddr)
    requires Linked(t) && |msg.buffer| == BufferSize
    requires HandleSTR(env, t, e, msg).reply.Ok?
    requires AddrString(previous) in t.public && t.public[AddrString(previous)] == StartTarget(t, msg).value
    requires AddrString(previous) != AddrString(msg.addr)
    ensures
      var h := HandleSTR(env, t, e, msg).table;
      var id := StartTarget(t, msg).value;
      && h.conns[id].pubAddr == Some(msg.addr)
      && GetConnectionByPublic(h, previous) == Ok(id)
      && GetConnectionByPublic(Close(h, Some(id)), previous) == Ok(id)
      && GetConnectionByPublic(Close(h, Some(id)), msg.addr).Err?
  {
    var h := HandleSTR(env, t, e, msg).table;
    var id := StartTarget(t, msg).value;
    assert h.public == t.public[AddrString(msg.addr) := id];
    assert h.conns[id].pubAddr == Some(msg.addr);
    CloseLeavesOtherBinding(h, id, msg.addr, previous);
  }

  /** `close` removes only the binding named by the record's current
      public address; any other address bound to it stays bound. */
  lemma CloseLeavesOtherBinding(h: ConnTable, id: ConnId, current: UdpAddr, previous: UdpAddr)
    requires Linked(h) && id in h.conns && h.conns[id].pubAddr == Some(current)
    requires AddrString(previous) in h.public && h.public[AddrString(previous)] == id
    requires AddrString(previous) != AddrString(current)
    ensures GetConnectionByPublic(h, previous) == Ok(id)
    ensures GetConnectionByPublic(Close(h, Some(id)), previous) == Ok(id)
    ensures GetConnectionByPublic(Close(h, Some(id)), current).Err?
  {
    var closed := Close(h, Some(id));
    assert closed.public == h.public - {AddrString(current)};
  }

  /** A Start whose key generation fails drops the cipher of a record that
      may already be waiting for the client response, and leaves it
      waiting: the response that follows dereferences the missing cipher
      and the relay crashes. */
  lemma FailedRestartCrashesRelay(env: Env, t: ConnTable, err: Option<Error>, e: Entropy, start: IOMessage, resp: IOMessage)
    requires Linked(t) && |start.buffer| == BufferSize && Fresh(resp)
    requires HandleSTR(env, t, e, start).reply == Err(StartCreatingCipher)
    requires t.conns[StartTarget(t, start).value].state == HandShakeServerSent
    requires GetConnectionByPublic(t, resp.addr) == Ok(StartTarget(t, start).value)
    requires resp.buffer[0] == ProtocolVer && resp.buffer[1] == MsgCHS
    requires LoadHandShake(env.suite, t.conns[StartTarget(t, start).value].publicKey.value, resp.buffer[2..]).Ok?
    requires LoadHandShake(env.suite, t.conns[StartTarget(t, start).value].publicKey.value, resp.buffer[2..]).value.session
             == t.conns[StartTarget(t, start).value].session
    ensures Dispatch(env, HandleSTR(env, t, e, start).table, err, e, Received(resp)) == Crash
  {
    var id := StartTarget(t, start).value;
    var t' := HandleSTR(env, t, e, start).table;
    assert t'.conns[id] == t.conns[id].(encrypt := None);
    assert GetConnectionByPublic(t', resp.addr) == Ok(id);
    assert HandleCHS(env, t', resp) == Err(Panic);
  }
}
