/**
 The point-to-point endpoint of socket.go: the initiator (`Connect`,
 `handShakeClient`) and responder (`Accept`, `handShakeServer`) handshakes
 and the data path (`Send`, `Recv`).

 The network is a trace of read events consumed in order, and a function
 telling whether the k-th write of a handshake succeeds. A read deadline
 expiring is the event `Timeout`; the deadline values are recorded, not
 waited for. A trace that ends while the endpoint is still reading leaves
 the call `Blocked`.

 socket.go names its message types `startHandShakeMsg`,
 `serverHandShakeMsg`, `clientHandShakeMsg` and `dataFrameMsg`. The last is
 data.go's 0xAA; the first three are defined outside the modelled files and
 are taken to be the 0x01, 0x02 and 0x03 of handshake.go.
 */
module Socket {
  import opened Bytes
  import opened Outcomes
  import opened Net
  import opened Crypto
  import opened Handshake
  import opened DataFrame

  /** Size of the receive buffer of `readFromUDP` and `Recv`. */
  const ReadBufferSize: nat := 2048
  /** Number of times a handshake packet is sent before giving up. */
  const MaxTries: nat := 3
  /** The first read deadline, in seconds; it doubles after each timeout. */
  const FirstDeadline: nat := 1

  /** One outcome of a read on the UDP socket. */
  datatype Event = Timeout | Datagram(data: seq<byte>, from: UdpAddr) | ReadError

  /** How a call that reads from the network ended: with a value, with an
      error, still waiting for input, or with a run-time panic. */
  datatype Outcome<+T> = Done(value: T) | Failed(error: Error) | Blocked | Crashed

  /** A handshake's outcome, the packets it wrote in order, how many read
      events it consumed, and the read deadline in force for each send. */
  datatype Exchange<+T> = Exchange(outcome: Outcome<T>, written: seq<seq<byte>>, used: nat, deadlines: seq<nat>)

  /** What a filter does with a datagram: accept it, drop it and read
      again, or index past its end. */
  datatype Verdict<+T> = Take(value: T) | Skip | Fault

  /** Which side is waiting for a 137-byte handshake message. */
  datatype Role = Initiator | Responder

  /** What a handshake reply must match: who waits for it, under which
      key, for which session, from which peer. */
  datatype Expect = Expect(role: Role, suite: Suite, vk: VerifyKey, session: Bytes8, raddr: UdpAddr)

  /** The checks shared by both sides once the type byte matched: the
      message verifies, carries the session, and comes from the peer. */
  function Matches(x: Expect, data: seq<byte>, from: UdpAddr): (v: Verdict<HandShake>)
    requires |data| >= 2
    ensures v.Take? <==> (&& LoadHandShake(x.suite, x.vk, data[2..]).Ok?
                          && LoadHandShake(x.suite, x.vk, data[2..]).value.session == x.session
                          && AddrString(from) == AddrString(x.raddr))
    ensures v.Take? ==> v.value == LoadHandShake(x.suite, x.vk, data[2..]).value
    ensures !v.Fault?
  {
    match LoadHandShake(x.suite, x.vk, data[2..])
    case Err(_) => Skip
    case Ok(hs) =>
      if hs.session != x.session || AddrString(from) != AddrString(x.raddr) then Skip else Take(hs)
  }

  /** The initiator's filter for the responder's message: version and type
      byte, evaluated left to right so that a datagram too short for the
      byte being read faults. */
  function ScreenReply(x: Expect, data: seq<byte>, from: UdpAddr): (v: Verdict<HandShake>)
    ensures v.Fault? <==> |data| == 0 || (|data| == 1 && data[0] == ProtocolVer)
    ensures v.Take? <==> |data| >= 2 && data[0] == ProtocolVer && data[1] == MsgSHS && Matches(x, data, from).Take?
    ensures v.Take? ==> v == Matches(x, data, from)
  {
    if |data| == 0 then Fault
    else if data[0] != ProtocolVer then Skip
    else if |data| == 1 then Fault
    else if data[1] != MsgSHS then Skip
    else Matches(x, data, from)
  }

  /** The responder's filter for the initiator's response: the type byte
      only, the version byte is never looked at. */
  function ScreenResponse(x: Expect, data: seq<byte>, from: UdpAddr): (v: Verdict<HandShake>)
    ensures v.Fault? <==> |data| < 2
    ensures v.Take? <==> |data| >= 2 && data[1] == MsgCHS && Matches(x, data, from).Take?
    ensures v.Take? ==> v == Matches(x, data, from)
  {
    if |data| < 2 then Fault
    else if data[1] != MsgCHS then Skip
    else Matches(x, data, from)
  }

  function Judge(x: Expect, data: seq<byte>, from: UdpAddr): Verdict<HandShake>
  {
    match x.role
    case Initiator => ScreenReply(x, data, from)
    case Responder => ScreenResponse(x, data, from)
  }

  /** A read event the filter drops. */
  predicate Ignored(x: Expect, ev: Event)
  {
    ev.Datagram? && Judge(x, ev.data, ev.from).Skip?
  }

  /** How the inner read loop ended, and after how many events. */
  datatype Heard = Got(msg: HandShake, used: nat) | TimedOut(used: nat) | Broken(used: nat) | Faulted(used: nat) | Silent

  /** The inner read loop of both handshakes: read until a datagram passes
      the filter, the deadline expires, a read fails or the filter faults. */
  function Listen(x: Expect, trace: seq<Event>): (h: Heard)
    ensures !h.Silent? ==> 0 < h.used <= |trace| && forall i | 0 <= i < h.used - 1 :: Ignored(x, trace[i])
    ensures h.Silent? ==> forall i | 0 <= i < |trace| :: Ignored(x, trace[i])
    ensures h.Got? ==> trace[h.used - 1].Datagram? && Judge(x, trace[h.used - 1].data, trace[h.used - 1].from) == Take(h.msg)
    ensures h.TimedOut? ==> trace[h.used - 1] == Timeout
    ensures h.Broken? ==> trace[h.used - 1] == ReadError
    ensures h.Faulted? ==> trace[h.used - 1].Datagram? && Judge(x, trace[h.used - 1].data, trace[h.used - 1].from).Fault?
    decreases |trace|
  {
    if |trace| == 0 then Silent
    else match trace[0]
    case Timeout => TimedOut(1)
    case ReadError => Broken(1)
    case Datagram(data, from) =>
      match Judge(x, data, from)
      case Fault => Faulted(1)
      case Take(m) => Got(m, 1)
      case Skip =>
        var h := Listen(x, trace[1..]);
        assert forall i | 1 <= i < |trace| :: trace[1..][i - 1] == trace[i];
        match h
        case Got(m, u) => Got(m, u + 1)
        case TimedOut(u) => TimedOut(u + 1)
        case Broken(u) => Broken(u + 1)
        case Faulted(u) => Faulted(u + 1)
        case Silent => Silent
  }

  /** An event a waiting handshake passes over: an expired deadline, or a
      datagram the filter drops. */
  predicate Waiting(x: Expect, ev: Event)
  {
    ev == Timeout || Ignored(x, ev)
  }

  /** The number of expired deadlines among the first `n` events. */
  function Timeouts(trace: seq<Event>, n: nat): (k: nat)
    requires n <= |trace|
    ensures k <= n
  {
    if n == 0 then 0
    else Timeouts(trace, n - 1) + (if trace[n - 1] == Timeout then 1 else 0)
  }

  lemma {:induction false} TimeoutsShift(trace: seq<Event>, u: nat, m: nat)
    requires u + m <= |trace|
    ensures Timeouts(trace, u + m) == Timeouts(trace, u) + Timeouts(trace[u..], m)
    decreases m
  {
    if m > 0 {
      TimeoutsShift(trace, u, m - 1);
      assert trace[u..][m - 1] == trace[u + m - 1];
    }
  }

  lemma {:induction false} TimeoutsOfIgnored(x: Expect, trace: seq<Event>, n: nat)
    requires n <= |trace|
    requires forall i | 0 <= i < n :: Ignored(x, trace[i])
    ensures Timeouts(trace, n) == 0
    decreases n
  {
    if n > 0 {
      TimeoutsOfIgnored(x, trace, n - 1);
    }
  }

  /** A read that timed out saw exactly one expired deadline; one that took
      a datagram saw none. */
  lemma ListenTimeouts(x: Expect, trace: seq<Event>)
    ensures Listen(x, trace).TimedOut? ==> Timeouts(trace, Listen(x, trace).used) == 1
    ensures Listen(x, trace).Got? ==> Timeouts(trace, Listen(x, trace).used) == 0
  {
    var h := Listen(x, trace);
    if h.TimedOut? || h.Got? {
      TimeoutsOfIgnored(x, trace, h.used - 1);
    }
  }

  /** The send-and-wait loop: up to `tries` more sends of `packet`, each
      followed by a read under `deadline`, the deadline doubling after each
      timeout. `sent` counts the writes already made. */
  function Retry(x: Expect, packet: seq<byte>, tries: nat, deadline: nat, writeOk: nat -> bool, trace: seq<Event>, sent: nat): (r: Exchange<HandShake>)
    ensures r.used <= |trace|
    ensures |r.written| <= tries && forall i | 0 <= i < |r.written| :: r.written[i] == packet
    ensures |r.deadlines| == |r.written|
    ensures forall i | 0 < i < |r.deadlines| :: r.deadlines[i] == 2 * r.deadlines[i - 1]
    ensures 0 < |r.deadlines| ==> r.deadlines[0] == deadline
    ensures r.outcome == Failed(HandshakeTimeout) ==> |r.written| == tries
    ensures r.outcome.Done? ==> exists i | 0 <= i < r.used :: trace[i].Datagram? && Judge(x, trace[i].data, trace[i].from) == Take(r.outcome.value)
    ensures r.outcome.Failed? ==> r.outcome.error in {HandshakeTimeout, ReadFailed, WriteFailed}
    ensures r.outcome == Failed(ReadFailed) ==> 0 < r.used && trace[r.used - 1] == ReadError
    decreases tries
  {
    if tries == 0 then Exchange(Failed(HandshakeTimeout), [], 0, [])
    else if !writeOk(sent) then Exchange(Failed(WriteFailed), [], 0, [])
    else match Listen(x, trace)
    case Got(m, u) => Exchange(Done(m), [packet], u, [deadline])
    case TimedOut(u) =>
      var rest := Retry(x, packet, tries - 1, 2 * deadline, writeOk, trace[u..], sent + 1);
      LaterRound(x, trace, u, rest);
      Exchange(rest.outcome, [packet] + rest.written, u + rest.used, [deadline] + rest.deadlines)
    case Broken(u) => Exchange(Failed(ReadFailed), [packet], u, [deadline])
    case Faulted(u) => Exchange(Crashed, [packet], u, [deadline])
    case Silent => Exchange(Blocked, [packet], |trace|, [deadline])
  }

  /** The first round of `Retry`: nothing left to send, a failed write, or
      the outcome of the first read decides the exchange, except that an
      expired deadline moves on to the next round. */
  lemma RetryFirstRound(x: Expect, packet: seq<byte>, tries: nat, deadline: nat, writeOk: nat -> bool, trace: seq<Event>, sent: nat)
    ensures
      var r := Retry(x, packet, tries, deadline, writeOk, trace, sent);
      && (tries == 0 ==> r == Exchange(Failed(HandshakeTimeout), [], 0, []))
      && (0 < tries && !writeOk(sent) ==> r.outcome == Failed(WriteFailed) && r.written == [] && r.used == 0)
    ensures 0 < tries && writeOk(sent) ==>
      var r := Retry(x, packet, tries, deadline, writeOk, trace, sent);
      var h := Listen(x, trace);
      && (h.Got? ==> r.outcome == Done(h.msg) && r.used == h.used && r.written == [packet])
      && (h.Broken? ==> r.outcome == Failed(ReadFailed) && r.used == h.used && r.written == [packet])
      && (h.Faulted? ==> r.outcome == Crashed && r.used == h.used && r.written == [packet])
      && (h.Silent? ==> r.outcome == Blocked && r.used == |trace| && r.written == [packet])
  {
  }

  /** The rounds of an exchange `r` over `trace` waited as a handshake does:
      every event before the last one was an expired deadline or a dropped
      datagram, a successful exchange ended on a datagram the filter took
      after one expired deadline per earlier send, and a timed-out one read
      nothing but expired deadlines and dropped datagrams, exactly `tries`
      deadlines of them. */
  ghost predicate RoundsWaited(x: Expect, tries: nat, trace: seq<Event>, r: Exchange<HandShake>)
  {
    && r.used <= |trace|
    && (forall i | 0 <= i < r.used - 1 :: Waiting(x, trace[i]))
    && (r.outcome.Done? ==>
          && 0 < r.used && trace[r.used - 1].Datagram?
          && Judge(x, trace[r.used - 1].data, trace[r.used - 1].from) == Take(r.outcome.value)
          && Timeouts(trace, r.used) == |r.written| - 1)
    && (r.outcome == Failed(HandshakeTimeout) ==>
          && (forall i | 0 <= i < r.used :: Waiting(x, trace[i]))
          && Timeouts(trace, r.used) == tries)
  }

  /** `Retry` waits as a handshake does: the first datagram the filter takes
      ends the wait, and a timeout needs `tries` expired deadlines with only
      dropped datagrams between them. */
  lemma {:induction false} RetryWaits(x: Expect, packet: seq<byte>, tries: nat, deadline: nat, writeOk: nat -> bool, trace: seq<Event>, sent: nat)
    ensures RoundsWaited(x, tries, trace, Retry(x, packet, tries, deadline, writeOk, trace, sent))
    decreases tries
  {
    if 0 < tries && writeOk(sent) && Listen(x, trace).TimedOut? {
      var u := Listen(x, trace).used;
      RetryWaits(x, packet, tries - 1, 2 * deadline, writeOk, trace[u..], sent + 1);
      RetryStep(x, packet, tries, deadline, writeOk, trace, sent);
    } else {
      RetryEnds(x, packet, tries, deadline, writeOk, trace, sent);
    }
  }

  /** An exchange that ends in its first round waits as a handshake does. */
  lemma RetryEnds(x: Expect, packet: seq<byte>, tries: nat, deadline: nat, writeOk: nat -> bool, trace: seq<Event>, sent: nat)
    requires !(0 < tries && writeOk(sent) && Listen(x, trace).TimedOut?)
    ensures RoundsWaited(x, tries, trace, Retry(x, packet, tries, deadline, writeOk, trace, sent))
  {
    var r := Retry(x, packet, tries, deadline, writeOk, trace, sent);
    if tries > 0 && writeOk(sent) {
      ListenWaited(x, tries, trace, r);
    } else {
      assert r.used == 0;
    }
  }

  /** A round that timed out, followed by rounds that wait as a handshake
      does, keeps the exchange waiting as a handshake does. */
  lemma RetryStep(x: Expect, packet: seq<byte>, tries: nat, deadline: nat, writeOk: nat -> bool, trace: seq<Event>, sent: nat)
    requires 0 < tries && writeOk(sent) && Listen(x, trace).TimedOut?
    ensures
      var u := Listen(x, trace).used;
      RoundsWaited(x, tries - 1, trace[u..], Retry(x, packet, tries - 1, 2 * deadline, writeOk, trace[u..], sent + 1)) ==>
      RoundsWaited(x, tries, trace, Retry(x, packet, tries, deadline, writeOk, trace, sent))
  {
    var u := Listen(x, trace).used;
    var rest := Retry(x, packet, tries - 1, 2 * deadline, writeOk, trace[u..], sent + 1);
    var r := Retry(x, packet, tries, deadline, writeOk, trace, sent);
    RetryTimedOut(x, packet, tries, deadline, writeOk, trace, sent);
    if RoundsWaited(x, tries - 1, trace[u..], rest) {
      RetryShift(x, tries, trace, u, rest, r);
    }
  }

  /** After an expired deadline `Retry` starts over on the rest of the
      trace with one try fewer and the deadline doubled. */
  lemma RetryTimedOut(x: Expect, packet: seq<byte>, tries: nat, deadline: nat, writeOk: nat -> bool, trace: seq<Event>, sent: nat)
    requires 0 < tries && writeOk(sent) && Listen(x, trace).TimedOut?
    ensures
      var u := Listen(x, trace).used;
      var rest := Retry(x, packet, tries - 1, 2 * deadline, writeOk, trace[u..], sent + 1);
      var r := Retry(x, packet, tries, deadline, writeOk, trace, sent);
      r.outcome == rest.outcome && r.used == u + rest.used && |r.written| == 1 + |rest.written|
  {
  }

  /** A first read that did not time out leaves an exchange that waited as
      a handshake does. */
  lemma ListenWaited(x: Expect, tries: nat, trace: seq<Event>, r: Exchange<HandShake>)
    requires !Listen(x, trace).TimedOut? && r.outcome != Failed(HandshakeTimeout)
    requires r.used == if Listen(x, trace).Silent? then |trace| else Listen(x, trace).used
    requires r.outcome.Done? ==> Listen(x, trace) == Got(r.outcome.value, r.used) && |r.written| == 1
    ensures RoundsWaited(x, tries, trace, r)
  {
    if r.outcome.Done? {
      ListenTimeouts(x, trace);
    }
  }

  /** Lifts what a later round `rest`, read after the first `u` events,
      established about its part of the trace to the whole trace. */
  lemma RetryShift(x: Expect, tries: nat, trace: seq<Event>, u: nat, rest: Exchange<HandShake>, r: Exchange<HandShake>)
    requires 0 < tries && Listen(x, trace) == TimedOut(u)
    requires RoundsWaited(x, tries - 1, trace[u..], rest)
    requires r.outcome == rest.outcome && r.used == u + rest.used && |r.written| == 1 + |rest.written|
    ensures RoundsWaited(x, tries, trace, r)
  {
    var n := u + rest.used;
    ShiftWaiting(x, trace, u, rest.used);
    if rest.outcome.Done? {
      assert trace[n - 1] == trace[u..][rest.used - 1];
    }
    if rest.outcome == Failed(HandshakeTimeout) && 0 < rest.used {
      assert trace[n - 1] == trace[u..][rest.used - 1];
    }
    ShiftTimeouts(x, trace, u, rest.used);
  }

  lemma ShiftWaiting(x: Expect, trace: seq<Event>, u: nat, m: nat)
    requires Listen(x, trace) == TimedOut(u) && u + m <= |trace|
    requires forall i | 0 <= i < m - 1 :: Waiting(x, trace[u..][i])
    ensures forall i | 0 <= i < u + m - 1 :: Waiting(x, trace[i])
  {
    forall i | 0 <= i < u + m - 1
      ensures Waiting(x, trace[i])
    {
      if u <= i {
        assert trace[i] == trace[u..][i - u];
      }
    }
  }

  lemma ShiftTimeouts(x: Expect, trace: seq<Event>, u: nat, m: nat)
    requires Listen(x, trace) == TimedOut(u) && u + m <= |trace|
    ensures Timeouts(trace, u + m) == 1 + Timeouts(trace[u..], m)
  {
    ListenTimeouts(x, trace);
    TimeoutsShift(trace, u, m);
  }

  /** What a later round, read after the first `u` events, ended on is
      found at the same place in the whole trace. */
  lemma LaterRound(x: Expect, trace: seq<Event>, u: nat, rest: Exchange<HandShake>)
    requires u <= |trace| && rest.used <= |trace| - u
    requires rest.outcome.Done? ==>
      exists i | 0 <= i < rest.used :: trace[u..][i].Datagram? && Judge(x, trace[u..][i].data, trace[u..][i].from) == Take(rest.outcome.value)
    requires rest.outcome == Failed(ReadFailed) ==> 0 < rest.used && trace[u..][rest.used - 1] == ReadError
    ensures rest.outcome.Done? ==>
      exists i | 0 <= i < u + rest.used :: trace[i].Datagram? && Judge(x, trace[i].data, trace[i].from) == Take(rest.outcome.value)
    ensures rest.outcome == Failed(ReadFailed) ==> trace[u + rest.used - 1] == ReadError
  {
    if rest.outcome.Done? {
      TakeShift(x, trace, u, rest.used, rest.outcome.value);
    }
    if rest.outcome == Failed(ReadFailed) {
      assert trace[u..][rest.used - 1] == trace[u + rest.used - 1];
    }
  }

  /** A datagram accepted in the rest of the trace after `u` is accepted
      in the trace itself. */
  lemma TakeShift(x: Expect, trace: seq<Event>, u: nat, n: nat, m: HandShake)
    requires u <= |trace| && n <= |trace| - u
    requires exists j | 0 <= j < n :: trace[u..][j].Datagram? && Judge(x, trace[u..][j].data, trace[u..][j].from) == Take(m)
    ensures exists i | 0 <= i < u + n :: trace[i].Datagram? && Judge(x, trace[i].data, trace[i].from) == Take(m)
    ensures exists i | u <= i < u + n :: trace[i].Datagram? && Judge(x, trace[i].data, trace[i].from) == Take(m)
  {
    var j :| 0 <= j < n && trace[u..][j].Datagram? && Judge(x, trace[u..][j].data, trace[u..][j].from) == Take(m);
    assert trace[u..][j] == trace[u + j];
  }

  /** The retry schedule as the handshakes run it: at most three sends,
      with deadlines of 1, 2 and 4 seconds, and "handshake timeout" only
      after all three expired. */
  lemma RetrySchedule(x: Expect, packet: seq<byte>, writeOk: nat -> bool, trace: seq<Event>)
    ensures
      var r := Retry(x, packet, MaxTries, FirstDeadline, writeOk, trace, 0);
      && r.deadlines == [1, 2, 4][..|r.deadlines|]
      && (r.outcome == Failed(HandshakeTimeout) ==> r.written == [packet, packet, packet])
  {
    var r := Retry(x, packet, MaxTries, FirstDeadline, writeOk, trace, 0);
    if |r.deadlines| >= 2 { assert r.deadlines[1] == 2; }
    if |r.deadlines| == 3 { assert r.deadlines[2] == 4; }
  }

  /** Carries a non-`Done` outcome over to another value type. */
  function Forward<T, U>(o: Outcome<T>): (r: Outcome<U>)
    requires !o.Done?
    ensures r.Failed? <==> o.Failed?
    ensures r.Failed? ==> r.error == o.error
    ensures r.Blocked? <==> o.Blocked?
  {
    match o
    case Failed(e) => Failed(e)
    case Blocked => Blocked
    case Crashed => Crashed
  }

  /** The Start the initiator sends: its `ip` field is never assigned, so
      it is 0.0.0.0; the signature is filled in by `dump`. */
  function ClientStart(session: Bytes8): StartHandShake
  {
    StartHandShake(Zeros(4), session, Zeros(64))
  }

  /** The initiator's response: its session and own ephemeral key under a
      zeroed signature, which `dump` replaces by a real one. */
  function ClientResponse(s: Suite, sk: SigningKey, session: Bytes8, eph: EphemeralKey): Result<seq<byte>>
  {
    PackHandShakeMessage(s, sk, MsgCHS, KeyMsg(HandShake(session, s.ephemeralPublic(eph), Zeros(64))))
  }

  /** The responder's handshake message, built the same way. */
  function ServerReply(s: Suite, sk: SigningKey, session: Bytes8, eph: EphemeralKey): Result<seq<byte>>
  {
    PackHandShakeMessage(s, sk, MsgSHS, KeyMsg(HandShake(session, s.ephemeralPublic(eph), Zeros(64))))
  }

  /** `handShakeClient`. `gen` is the outcome of ephemeral key generation. */
  function HandShakeClient(s: Suite, sk: SigningKey, vk: VerifyKey, session: Bytes8, raddr: UdpAddr,
                           gen: Option<EphemeralKey>, writeOk: nat -> bool, trace: seq<Event>): (r: Exchange<Cipher>)
    ensures r.used <= |trace|
    // Nothing is sent when the Start cannot be signed.
    ensures PackHandShakeMessage(s, sk, MsgSTR, StartMsg(ClientStart(session))).Err? ==>
              r.outcome == Failed(SigningFailed) && r.written == []
    // Every packet is the Start, except the closing response of a success.
    ensures 0 < |r.written| ==>
              && PackHandShakeMessage(s, sk, MsgSTR, StartMsg(ClientStart(session))).Ok?
              && r.written[0] == PackHandShakeMessage(s, sk, MsgSTR, StartMsg(ClientStart(session))).value
    ensures forall i | 0 <= i < |r.written| - (if r.outcome.Done? then 1 else 0) ::
              r.written[i] == PackHandShakeMessage(s, sk, MsgSTR, StartMsg(ClientStart(session))).value
    // Success: a reply passed the filter, the cipher holds the secret agreed
    // with the reply's key, and the last packet is the client response.
    ensures r.outcome.Done? ==>
              && gen.Some?
              && r.outcome.value.ephemeral == gen.value
              && r.outcome.value.shared.Some?
              && 2 <= |r.written| <= MaxTries + 1
              && ClientResponse(s, sk, session, gen.value).Ok?
              && r.written[|r.written| - 1] == ClientResponse(s, sk, session, gen.value).value
    ensures r.outcome.Done? ==>
      var x := Expect(Initiator, s, vk, session, raddr);
      exists i | 0 <= i < r.used ::
        && trace[i].Datagram?
        && ScreenReply(x, trace[i].data, trace[i].from).Take?
        && r.outcome.value.shared == s.agree(gen.value, ScreenReply(x, trace[i].data, trace[i].from).value.epk)
  {
    match PackHandShakeMessage(s, sk, MsgSTR, StartMsg(ClientStart(session)))
    case Err(e) => Exchange(Failed(e), [], 0, [])
    case Ok(pkg) =>
      var x := Expect(Initiator, s, vk, session, raddr);
      var w := Retry(x, pkg, MaxTries, FirstDeadline, writeOk, trace, 0);
      match w.outcome
      case Done(hs) => ClientFinish(s, sk, session, gen, writeOk, w, hs)
      case _ => Exchange(Forward(w.outcome), w.written, w.used, w.deadlines)
  }

  /** A client handshake that timed out sent the Start three times, under
      deadlines of 1, 2 and 4 seconds, and read nothing but expired
      deadlines and dropped datagrams, three deadlines of them. */
  lemma ClientTimesOut(s: Suite, sk: SigningKey, vk: VerifyKey, session: Bytes8, raddr: UdpAddr,
                       gen: Option<EphemeralKey>, writeOk: nat -> bool, trace: seq<Event>)
    requires HandShakeClient(s, sk, vk, session, raddr, gen, writeOk, trace).outcome == Failed(HandshakeTimeout)
    ensures
      var r := HandShakeClient(s, sk, vk, session, raddr, gen, writeOk, trace);
      var start := PackHandShakeMessage(s, sk, MsgSTR, StartMsg(ClientStart(session)));
      && start.Ok? && r.written == [start.value, start.value, start.value] && r.deadlines == [1, 2, 4]
      && (forall i | 0 <= i < r.used :: Waiting(Expect(Initiator, s, vk, session, raddr), trace[i]))
      && Timeouts(trace, r.used) == MaxTries
  {
    var start := PackHandShakeMessage(s, sk, MsgSTR, StartMsg(ClientStart(session)));
    var x := Expect(Initiator, s, vk, session, raddr);
    RetrySchedule(x, start.value, writeOk, trace);
    RetryWaits(x, start.value, MaxTries, FirstDeadline, writeOk, trace, 0);
  }

  /** The initiator after accepting the reply `hs`: key generation, key
      agreement, and the signed response as one more write. */
  function ClientFinish(s: Suite, sk: SigningKey, session: Bytes8, gen: Option<EphemeralKey>,
                        writeOk: nat -> bool, w: Exchange<HandShake>, hs: HandShake): (r: Exchange<Cipher>)
    ensures r.used == w.used
    ensures !r.outcome.Done? ==> r.written == w.written
    ensures !r.outcome.Done? ==> !r.outcome.Blocked? && !r.outcome.Crashed?
    // Each step fails with its own error, in the code's order; success needs
    // all four.
    ensures gen.None? ==> r.outcome == Failed(KeyGenerationFailed)
    ensures gen.Some? && s.agree(gen.value, hs.epk).None? ==> r.outcome == Failed(KeyAgreementFailed)
    ensures gen.Some? && s.agree(gen.value, hs.epk).Some? && ClientResponse(s, sk, session, gen.value).Err? ==>
              r.outcome == Failed(SigningFailed)
    ensures gen.Some? && s.agree(gen.value, hs.epk).Some? && ClientResponse(s, sk, session, gen.value).Ok? && !writeOk(|w.written|) ==>
              r.outcome == Failed(WriteFailed)
    ensures r.outcome.Done? <==> (
              && gen.Some? && s.agree(gen.value, hs.epk).Some?
              && ClientResponse(s, sk, session, gen.value).Ok? && writeOk(|w.written|))
    ensures r.outcome.Done? ==>
              && gen.Some?
              && r.outcome.value == Cipher(gen.value, s.agree(gen.value, hs.epk))
              && r.outcome.value.shared.Some?
              && ClientResponse(s, sk, session, gen.value).Ok?
              && r.written == w.written + [ClientResponse(s, sk, session, gen.value).value]
  {
    match NewCipher(gen)
    case Err(e) => Exchange(Failed(e), w.written, w.used, w.deadlines)
    case Ok(c) =>
      match SharedSecret(s, c, hs.epk)
      case Err(e) => Exchange(Failed(e), w.written, w.used, w.deadlines)
      case Ok(c') =>
        var response := HandShake(session, PublicKey(s, c'), Zeros(64));
        match PackHandShakeMessage(s, sk, MsgCHS, KeyMsg(response))
        case Err(e) => Exchange(Failed(e), w.written, w.used, w.deadlines)
        case Ok(pkg') =>
          if !writeOk(|w.written|) then Exchange(Failed(WriteFailed), w.written, w.used, w.deadlines)
          else Exchange(Done(c'), w.written + [pkg'], w.used, w.deadlines)
  }

  /** What the responder's first phase ends with. */
  datatype StartHeard = Heard(start: StartHandShake, from: UdpAddr, used: nat) | Refused(used: nat) | Overrun(used: nat) | Unheard

  /** The responder's filter for the first Start: version and type byte,
      then the signature; the sender's address is not checked. */
  function ScreenStart(s: Suite, vk: VerifyKey, data: seq<byte>): (v: Verdict<StartHandShake>)
    ensures v.Fault? <==> |data| == 0 || (|data| == 1 && data[0] == ProtocolVer)
    ensures v.Take? <==> |data| >= 2 && data[0] == ProtocolVer && data[1] == MsgSTR && LoadStart(s, vk, data[2..]).Ok?
    ensures v.Take? ==> v.value == LoadStart(s, vk, data[2..]).value
  {
    if |data| == 0 then Fault
    else if data[0] != ProtocolVer then Skip
    else if |data| == 1 then Fault
    else if data[1] != MsgSTR then Skip
    else match LoadStart(s, vk, data[2..])
    case Err(_) => Skip
    case Ok(start) => Take(start)
  }

  /** The responder's first loop: no deadline is set, so any failed read
      ends the handshake. */
  function AwaitStart(s: Suite, vk: VerifyKey, trace: seq<Event>): (h: StartHeard)
    ensures !h.Unheard? ==> 0 < h.used <= |trace|
    ensures h.Heard? ==> (&& trace[h.used - 1].Datagram? && trace[h.used - 1].from == h.from
                          && ScreenStart(s, vk, trace[h.used - 1].data) == Take(h.start))
    ensures h.Refused? ==> !trace[h.used - 1].Datagram?
    ensures h.Overrun? ==> trace[h.used - 1].Datagram? && ScreenStart(s, vk, trace[h.used - 1].data).Fault?
    ensures h.Unheard? ==> forall i | 0 <= i < |trace| :: trace[i].Datagram? && ScreenStart(s, vk, trace[i].data).Skip?
    // The wait ends at the first event that is not a datagram the filter drops.
    ensures !h.Unheard? ==> forall i | 0 <= i < h.used - 1 :: trace[i].Datagram? && ScreenStart(s, vk, trace[i].data).Skip?
    decreases |trace|
  {
    if |trace| == 0 then Unheard
    else match trace[0]
    case Timeout => Refused(1)
    case ReadError => Refused(1)
    case Datagram(data, from) =>
      match ScreenStart(s, vk, data)
      case Fault => Overrun(1)
      case Take(start) => Heard(start, from, 1)
      case Skip =>
        var h := AwaitStart(s, vk, trace[1..]);
        assert forall i | 1 <= i < |trace| :: trace[1..][i - 1] == trace[i];
        match h
        case Heard(start, from', u) => Heard(start, from', u + 1)
        case Refused(u) => Refused(u + 1)
        case Overrun(u) => Overrun(u + 1)
        case Unheard => Unheard
  }

  /** What a completed responder handshake established. */
  datatype Established = Established(session: Bytes8, raddr: UdpAddr, encrypt: Cipher)

  /** `handShakeServer`. `raddr` is the peer configured before the call, if
      any; otherwise the sender of the accepted Start becomes the peer. */
  function HandShakeServer(s: Suite, sk: SigningKey, vk: VerifyKey, raddr: Option<UdpAddr>,
                           gen: Option<EphemeralKey>, writeOk: nat -> bool, trace: seq<Event>): (r: Exchange<Established>)
    ensures r.used <= |trace|
    // No response is sent before a verified Start has been read.
    ensures 0 < |r.written| ==> AwaitStart(s, vk, trace).Heard?
    // Failing key generation dereferences a nil cipher.
    ensures AwaitStart(s, vk, trace).Heard? && gen.None? ==> r.outcome == Crashed
    // A response that cannot be signed is never sent, yet the call succeeds.
    ensures AwaitStart(s, vk, trace).Heard? && gen.Some?
            && ServerReply(s, sk, AwaitStart(s, vk, trace).start.session, gen.value).Err? ==>
              r.outcome.Done? && r.written == [] && r.outcome.value.encrypt == Cipher(gen.value, None)
    ensures r.outcome.Done? ==>
      && AwaitStart(s, vk, trace).Heard?
      && gen.Some?
      && r.outcome.value.session == AwaitStart(s, vk, trace).start.session
      && r.outcome.value.raddr == (if raddr.Some? then raddr.value else AwaitStart(s, vk, trace).from)
      && r.outcome.value.encrypt.ephemeral == gen.value
    // Every packet written is the signed response carrying the Start's session.
    ensures 0 < |r.written| ==> gen.Some? && ServerReply(s, sk, AwaitStart(s, vk, trace).start.session, gen.value).Ok?
    ensures 0 < |r.written| ==> forall i | 0 <= i < |r.written| ::
      r.written[i] == ServerReply(s, sk, AwaitStart(s, vk, trace).start.session, gen.value).value
    // Success after sending: a response read after the Start passed the
    // filter, and the cipher holds the secret agreed with its key.
    ensures r.outcome.Done? && 0 < |r.written| ==>
      var st := AwaitStart(s, vk, trace);
      var x := Expect(Responder, s, vk, st.start.session, r.outcome.value.raddr);
      exists i | st.used <= i < r.used ::
        && trace[i].Datagram?
        && ScreenResponse(x, trace[i].data, trace[i].from).Take?
        && r.outcome.value.encrypt.shared == s.agree(gen.value, ScreenResponse(x, trace[i].data, trace[i].from).value.epk)
  {
    match AwaitStart(s, vk, trace)
    case Unheard => Exchange(Blocked, [], |trace|, [])
    case Refused(u) => Exchange(Failed(ReadFailed), [], u, [])
    case Overrun(u) => Exchange(Crashed, [], u, [])
    case Heard(start, from, u) =>
      var peer := if raddr.Some? then raddr.value else from;
      match NewCipher(gen)
      case Err(_) => Exchange(Crashed, [], u, [])
      case Ok(c) =>
        var hsmsg := HandShake(start.session, PublicKey(s, c), Zeros(64));
        match PackHandShakeMessage(s, sk, MsgSHS, KeyMsg(hsmsg))
        case Err(_) => Exchange(Done(Established(start.session, peer, c)), [], u, [])
        case Ok(pkt) =>
          var x := Expect(Responder, s, vk, start.session, peer);
          var w := Retry(x, pkt, MaxTries, FirstDeadline, writeOk, trace[u..], 0);
          match w.outcome
          case Done(hs) =>
            ServerFinish(s, x, c, trace, u, w, hs)
          case _ => Exchange(Forward(w.outcome), w.written, u + w.used, w.deadlines)
  }

  /** A server handshake that timed out sent its message three times, under
      deadlines of 1, 2 and 4 seconds, and after the Start read nothing but
      expired deadlines and dropped datagrams, three deadlines of them. */
  lemma ServerTimesOut(s: Suite, sk: SigningKey, vk: VerifyKey, raddr: Option<UdpAddr>,
                       gen: Option<EphemeralKey>, writeOk: nat -> bool, trace: seq<Event>)
    requires HandShakeServer(s, sk, vk, raddr, gen, writeOk, trace).outcome == Failed(HandshakeTimeout)
    ensures
      var r := HandShakeServer(s, sk, vk, raddr, gen, writeOk, trace);
      var st := AwaitStart(s, vk, trace);
      && st.Heard? && gen.Some? && ServerReply(s, sk, st.start.session, gen.value).Ok?
      && var reply := ServerReply(s, sk, st.start.session, gen.value).value;
         var x := Expect(Responder, s, vk, st.start.session, if raddr.Some? then raddr.value else st.from);
         && r.written == [reply, reply, reply] && r.deadlines == [1, 2, 4]
         && (forall i | st.used <= i < r.used :: Waiting(x, trace[i]))
         && Timeouts(trace[st.used..], r.used - st.used) == MaxTries
  {
    var r := HandShakeServer(s, sk, vk, raddr, gen, writeOk, trace);
    ServerRounds(s, sk, vk, raddr, gen, writeOk, trace);
    var st := AwaitStart(s, vk, trace);
    var x := Expect(Responder, s, vk, st.start.session, if raddr.Some? then raddr.value else st.from);
    TimedOutRounds(x, ServerReply(s, sk, st.start.session, gen.value).value, writeOk, trace, st.used, r);
  }

  /** An exchange `r` that is the loop `Retry` started `u` events into the
      trace, timed out: three sends, deadlines of 1, 2 and 4 seconds, and
      nothing read but expired deadlines and dropped datagrams. */
  lemma TimedOutRounds(x: Expect, packet: seq<byte>, writeOk: nat -> bool, trace: seq<Event>, u: nat, r: Exchange<Established>)
    requires u <= |trace|
    requires
      var w := Retry(x, packet, MaxTries, FirstDeadline, writeOk, trace[u..], 0);
      && w.outcome == Failed(HandshakeTimeout)
      && r.written == w.written && r.used == u + w.used && r.deadlines == w.deadlines
    ensures r.written == [packet, packet, packet] && r.deadlines == [1, 2, 4]
    ensures forall i | u <= i < r.used :: Waiting(x, trace[i])
    ensures Timeouts(trace[u..], r.used - u) == MaxTries
  {
    var rest := trace[u..];
    var w := Retry(x, packet, MaxTries, FirstDeadline, writeOk, rest, 0);
    RetrySchedule(x, packet, writeOk, rest);
    RetryWaits(x, packet, MaxTries, FirstDeadline, writeOk, rest, 0);
    forall i | u <= i < r.used
      ensures Waiting(x, trace[i])
    {
      assert trace[i] == rest[i - u];
    }
  }

  /** A server handshake that timed out did so in its send-and-wait loop,
      which it entered after the Start with a packed message. */
  lemma ServerRounds(s: Suite, sk: SigningKey, vk: VerifyKey, raddr: Option<UdpAddr>,
                     gen: Option<EphemeralKey>, writeOk: nat -> bool, trace: seq<Event>)
    requires HandShakeServer(s, sk, vk, raddr, gen, writeOk, trace).outcome == Failed(HandshakeTimeout)
    ensures
      var r := HandShakeServer(s, sk, vk, raddr, gen, writeOk, trace);
      var st := AwaitStart(s, vk, trace);
      && st.Heard? && gen.Some? && ServerReply(s, sk, st.start.session, gen.value).Ok?
      && var w := Retry(Expect(Responder, s, vk, st.start.session, if raddr.Some? then raddr.value else st.from),
                        ServerReply(s, sk, st.start.session, gen.value).value, MaxTries, FirstDeadline, writeOk, trace[st.used..], 0);
         && w.outcome == Failed(HandshakeTimeout)
         && r.written == w.written && r.used == st.used + w.used && r.deadlines == w.deadlines
  {
  }

  /** The responder after accepting the response `hs`, read `u` events
      into the trace: key agreement with the response's key. */
  function ServerFinish(s: Suite, x: Expect, c: Cipher, trace: seq<Event>, u: nat,
                        w: Exchange<HandShake>, hs: HandShake): (r: Exchange<Established>)
    requires x.role == Responder
    requires u <= |trace| && w.used <= |trace| - u
    requires exists j | 0 <= j < w.used :: trace[u..][j].Datagram? && Judge(x, trace[u..][j].data, trace[u..][j].from) == Take(hs)
    ensures r.written == w.written && r.used == u + w.used
    ensures r.outcome.Failed? <==> s.agree(c.ephemeral, hs.epk).None?
    ensures r.outcome.Failed? ==> r.outcome.error == KeyAgreementFailed
    ensures r.outcome.Done? ==>
      && r.outcome.value == Established(x.session, x.raddr, c.(shared := s.agree(c.ephemeral, hs.epk)))
      && exists i | u <= i < r.used ::
           && trace[i].Datagram?
           && ScreenResponse(x, trace[i].data, trace[i].from).Take?
           && r.outcome.value.encrypt.shared == s.agree(c.ephemeral, ScreenResponse(x, trace[i].data, trace[i].from).value.epk)
  {
    match SharedSecret(s, c, hs.epk)
    case Err(e) => Exchange(Failed(e), w.written, u + w.used, w.deadlines)
    case Ok(c') =>
      TakeShift(x, trace, u, w.used, hs);
      Exchange(Done(Established(x.session, x.raddr, c')), w.written, u + w.used, w.deadlines)
  }

  /** The endpoint's state: the peer, the session id, the cipher, and
      whether its UDP socket is open. */
  datatype Endpoint = Endpoint(raddr: Option<UdpAddr>, session: Bytes8, encrypt: Option<Cipher>, open: bool)

  /** `Connect`. `resolve` stands for `net.ResolveUDPAddr`, `None` for its
      error; `session` is the random session id drawn for this call. Opening
      the socket is taken to succeed. */
  function Connect(ep: Endpoint, s: Suite, sk: SigningKey, address: string, resolve: string -> Option<UdpAddr>,
                   vk: VerifyKey, session: Bytes8, gen: Option<EphemeralKey>, writeOk: nat -> bool,
                   trace: seq<Event>): (r: (Endpoint, Outcome<Cipher>))
    ensures address == "" ==> r == (ep, Failed(InvalidAddressValue))
    // A resolution error is returned before anything else happens, and
    // leaves the peer unset.
    ensures address != "" && resolve(address).None? ==> r == (ep.(raddr := None), Failed(AddressResolutionFailed))
    ensures address != "" && resolve(address).Some? ==>
      && r.1 == HandShakeClient(s, sk, vk, session, resolve(address).value, gen, writeOk, trace).outcome
      && r.0.raddr == resolve(address) && r.0.session == session
      // The socket stays open exactly when the handshake did not fail.
      && (r.0.open <==> !r.1.Failed?)
    ensures r.1.Done? ==> r.0.encrypt == Some(r.1.value) && r.0.open
  {
    if address == "" then (ep, Failed(InvalidAddressValue))
    else match resolve(address)
    case None => (ep.(raddr := None), Failed(AddressResolutionFailed))
    case Some(raddr) =>
      var x := HandShakeClient(s, sk, vk, session, raddr, gen, writeOk, trace);
      var encrypt := if x.outcome.Done? then Some(x.outcome.value) else ep.encrypt;
      (Endpoint(Some(raddr), session, encrypt, !x.outcome.Failed?), x.outcome)
  }

  /** `Accept`. A non-empty address is resolved by `resolve` as in
      `Connect`; an empty one keeps whatever peer was set before. */
  function Accept(ep: Endpoint, s: Suite, sk: SigningKey, address: string, resolve: string -> Option<UdpAddr>,
                  vk: VerifyKey, gen: Option<EphemeralKey>, writeOk: nat -> bool,
                  trace: seq<Event>): (r: (Endpoint, Outcome<Established>))
    ensures address != "" && resolve(address).None? ==> r == (ep.(raddr := None), Failed(AddressResolutionFailed))
    ensures address == "" || resolve(address).Some? ==>
      var raddr := if address != "" then resolve(address) else ep.raddr;
      && r.1 == HandShakeServer(s, sk, vk, raddr, gen, writeOk, trace).outcome
      // The socket stays open exactly when the handshake did not fail.
      && (r.0.open <==> !r.1.Failed?)
    ensures r.1.Done? ==> r.0 == Endpoint(Some(r.1.value.raddr), r.1.value.session, Some(r.1.value.encrypt), true)
  {
    if address != "" && resolve(address).None? then (ep.(raddr := None), Failed(AddressResolutionFailed))
    else
      var raddr := if address != "" then resolve(address) else ep.raddr;
      var x := HandShakeServer(s, sk, vk, raddr, gen, writeOk, trace);
      match x.outcome
      case Done(est) => (Endpoint(Some(est.raddr), est.session, Some(est.encrypt), true), x.outcome)
      case _ => (ep.(raddr := raddr, open := !x.outcome.Failed?), x.outcome)
  }

  /** `Send`: the datagram written to the peer. A frame too long for the
      2048-byte buffer is sliced past its end and panics; a missing cipher
      is a nil dereference. */
  function Send(ep: Endpoint, s: Suite, nonce: Option<Bytes12>, writeOk: bool, data: seq<byte>): (r: Result<seq<byte>>)
    ensures ep.encrypt.None? ==> r == Err(Panic)
    ensures ep.encrypt.Some? && DumpDataFrame(s, ep.encrypt.value, nonce, data).Err? ==>
              r == Err(DumpDataFrame(s, ep.encrypt.value, nonce, data).error)
    // Slicing the buffer past its 2048 bytes panics before anything is written.
    ensures ep.encrypt.Some? && DumpDataFrame(s, ep.encrypt.value, nonce, data).Ok? ==>
              var frame := DumpDataFrame(s, ep.encrypt.value, nonce, data).value;
              && (|frame| + 2 > ReadBufferSize ==> r == Err(Panic))
              && (|frame| + 2 <= ReadBufferSize && !writeOk ==> r == Err(WriteFailed))
    ensures r.Ok? <==> (
      && ep.encrypt.Some? && writeOk
      && DumpDataFrame(s, ep.encrypt.value, nonce, data).Ok?
      && |DumpDataFrame(s, ep.encrypt.value, nonce, data).value| + 2 <= ReadBufferSize)
    ensures r.Ok? ==>
      && r.value == [ProtocolVer, DataFrameMsg] + DumpDataFrame(s, ep.encrypt.value, nonce, data).value
      && |r.value| <= ReadBufferSize
  {
    match ep.encrypt
    case None => Err(Panic)
    case Some(c) =>
      match DumpDataFrame(s, c, nonce, data)
      case Err(e) => Err(e)
      case Ok(tmp) =>
        var buffer := [ProtocolVer, DataFrameMsg] + CopyInto(Zeros(ReadBufferSize - 2), tmp);
        if |tmp| + 2 > ReadBufferSize then Err(Panic)
        else if !writeOk then Err(WriteFailed)
        else
          assert buffer[..|tmp| + 2] == [ProtocolVer, DataFrameMsg] + tmp;
          Ok(buffer[..|tmp| + 2])
  }

  /** A datagram `Recv` goes on to open: it comes from the peer's address
      and carries the version byte and the data-frame type. */
  predicate FromPeer(ep: Endpoint, ev: Event)
  {
    && ev.Datagram? && ep.raddr.Some? && AddrString(ev.from) == AddrString(ep.raddr.value)
    && |ev.data| >= 2 && ev.data[0] == ProtocolVer && ev.data[1] == DataFrameMsg
  }

  /** `Recv`: a read error is returned; a datagram from another address,
      or with the wrong version or type, yields nothing and no error. A
      frame shorter than nonce plus tag is refused before the cipher is
      touched; only then does a missing cipher dereference nil. */
  function Recv(ep: Endpoint, s: Suite, ev: Event): (r: Result<Option<seq<byte>>>)
    requires ev.Datagram? ==> |ev.data| <= ReadBufferSize
    ensures !ev.Datagram? ==> r == Err(ReadFailed)
    ensures ev.Datagram? && (ep.raddr.None? || AddrString(ev.from) != AddrString(ep.raddr.value)) ==> r == Ok(None)
    ensures ev.Datagram? && (|ev.data| < 2 || ev.data[0] != ProtocolVer || ev.data[1] != DataFrameMsg) ==> r == Ok(None)
    ensures FromPeer(ep, ev) && |ev.data| - 2 < DataFrameCipherTextOffset ==> r == Err(BufferTooSmall)
    ensures FromPeer(ep, ev) && |ev.data| - 2 >= DataFrameCipherTextOffset && ep.encrypt.None? ==> r == Err(Panic)
    ensures FromPeer(ep, ev) && ep.encrypt.Some? && LoadDataFrame(s, ep.encrypt.value, ev.data[2..]).Err? ==>
              r == Err(LoadDataFrame(s, ep.encrypt.value, ev.data[2..]).error)
    ensures r.Ok? && r.value.Some? <==> FromPeer(ep, ev) && ep.encrypt.Some? && LoadDataFrame(s, ep.encrypt.value, ev.data[2..]).Ok?
    ensures r.Ok? && r.value.Some? ==>
      && ep.raddr == Some(ev.from)
      && r.value.value == LoadDataFrame(s, ep.encrypt.value, ev.data[2..]).value
  {
    if !ev.Datagram? then Err(ReadFailed)
    else
      var buffer := ev.data + Zeros(ReadBufferSize - |ev.data|);
      if ep.raddr.None? || AddrString(ev.from) != AddrString(ep.raddr.value) then Ok(None)
      else if buffer[0] != ProtocolVer || buffer[1] != DataFrameMsg then Ok(None)
      else
        assert |ev.data| >= 2 by {
          assert buffer[1] != 0;
        }
        assert buffer[2..|ev.data|] == ev.data[2..];
        if |ev.data| - 2 < DataFrameCipherTextOffset then Err(BufferTooSmall)
        else
          match ep.encrypt
          case None => Err(Panic)
          case Some(c) =>
            match LoadDataFrame(s, c, buffer[2..|ev.data|])
            case Err(e) => Err(e)
            case Ok(p) => Ok(Some(p))
  }
}
