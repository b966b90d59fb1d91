/** What streams the server accepts, stated as a grammar: the handshake leads to a connection
    exactly on the streams of that grammar. */
module Handshake {
  import opened Blocks
  import opened Protocol
  import opened Socks5

  /** A greeting that offers the method "no authentication". */
  ghost predicate IsGreeting(g: seq<byte>) {
    |g| > 2 && g[0] == 5 && g[1] as int == |g| - 2 && 0 in g[2..]
  }

  function Request(cmd: byte, a: SockAddr): (m: seq<byte>) {
    [5, cmd, 0] + AddrPort(a)
  }

  ghost predicate IsInet(a: SockAddr) {
    Protocol.WellFormed(a) && !a.OtherFamily?
  }

  const GREETED: seq<Call> := [Respond(GREETING_REPLY)]

  /** A stream starts with a greeting, and `m` is what follows. */
  ghost predicate Greets(stream: seq<byte>, m: seq<byte>) {
    exists n :: 0 <= n <= |stream| && IsGreeting(stream[..n]) && stream[n..] == m
  }

  /** A stream is a greeting, a connect request for `a`, and then `tail`. */
  ghost predicate Asks(stream: seq<byte>, a: SockAddr, tail: seq<byte>) {
    Greets(stream, Request(1, a) + tail)
  }

  /** A stream is a greeting, a bind request for the port with any address, and then `tail`. */
  ghost predicate AsksBind(stream: seq<byte>, port: u16, tail: seq<byte>) {
    exists a :: IsInet(a) && a.port == Htons(port) && Greets(stream, Request(2, a) + tail)
  }

  ghost predicate KnownHeader(m: seq<byte>) {
    Heads(m, 1, ATYP_V4) || Heads(m, 1, ATYP_V6) || Heads(m, 2, ATYP_V4) || Heads(m, 2, ATYP_V6)
  }

  /** A stream goes wrong: it is no greeting of this version, or one that offers no method or
      only others, or the request header behind it is not one of the four known. */
  ghost predicate Rejected(stream: seq<byte>) {
    && |stream| >= 2
    && (|| stream[0] != 5 || stream[1] == 0
        || (&& HasGreeting(stream)
            && var n := 2 + stream[1] as int;
               0 !in stream[2..n] || (|stream| >= n + 4 && !KnownHeader(stream[n..]))))
  }

  /** The calls of a bind that succeeds. */
  ghost function BindLog(env: Env, port: u16): (log: seq<Call>) {
    GREETED + [Bind(port)] + [Respond(BindReply(env(GREETED + [Bind(port)]).port))]
  }

  /** Binding a port, or the reply to it, fails. */
  ghost predicate BindFails(env: Env, port: u16) {
    env(GREETED + [Bind(port)]).status == Failed || env(BindLog(env, port)).status == Failed
  }

  /** A stream starts with a whole greeting that offers "no authentication". */
  ghost predicate Offers(stream: seq<byte>) {
    HasGreeting(stream) && 0 in stream[2..2 + stream[1] as int]
  }

  /** A stream that is all right, but a callback fails on the way. */
  ghost predicate LetDown(env: Env, stream: seq<byte>) {
    if env(GREETED).status != OK then Offers(stream)
    else exists port, tail :: AsksBind(stream, port, tail) && BindFails(env, port)
  }

  /** Unfolds a run by one transition. */
  lemma RunStep(env: Env, p: Parser, data: seq<byte>)
    requires Socks5.WellFormed(p) && p.state != Success
    ensures var s := Proceed(env, p, data);
            Run(env, p, data) == if s.go then Run(env, s.p, data[s.n..]) else (s.p, data[s.n..])
  {
  }

  ghost predicate HasGreeting(stream: seq<byte>) {
    |stream| >= 2 && stream[0] == 5 && stream[1] > 0 && |stream| >= 2 + stream[1] as int
  }

  lemma RunMethods(env: Env, n: nat, rest: seq<byte>)
    requires 1 <= n <= 255 && n <= |rest|
    ensures Run(env, Parser(GreetingMethods, n, []), rest) ==
            if 0 !in rest[..n] then (Parser(Fail, n, []), rest[n..])
            else if env(GREETED).status != OK then (Parser(Fail, n, GREETED), rest[n..])
            else Run(env, Parser(RequestHeader, 4, GREETED), rest[n..])
  {
    hide Run;
    var p := Parser(GreetingMethods, n, []);
    assert [] + [Respond(GREETING_REPLY)] == GREETED;
    RunStep(env, p, rest);
  }

  /** Reading a greeting: the reply is sent exactly if "no authentication" is offered, and the
      handshake goes on exactly if it could be sent. */
  lemma RunGreeting(env: Env, stream: seq<byte>)
    requires HasGreeting(stream)
    ensures var n := 2 + stream[1] as int;
            Run(env, START, stream) ==
            if 0 !in stream[2..n] then (Parser(Fail, stream[1] as nat, []), stream[n..])
            else if env(GREETED).status != OK then (Parser(Fail, stream[1] as nat, GREETED), stream[n..])
            else Run(env, Parser(RequestHeader, 4, GREETED), stream[n..])
  {
    hide Run;
    var n := 2 + stream[1] as int;
    assert stream[2..][..n - 2] == stream[2..n] && stream[2..][n - 2..] == stream[n..];
    RunStep(env, START, stream);
    RunMethods(env, stream[1] as nat, stream[2..]);
  }

  /** Without a whole greeting the handshake makes no call; it waits for more unless the
      greeting is wrong. */
  lemma RunNoGreeting(env: Env, stream: seq<byte>)
    requires !HasGreeting(stream)
    ensures var r := Run(env, START, stream);
            && r.0.log == []
            && if Rejected(stream) then r.0.state == Fail else !Stopped(r.0) && |r.1| < r.0.required
  {
    hide Run;
    RunStep(env, START, stream);
    if |stream| >= 2 && stream[0] == 5 && stream[1] > 0 {
      RunStep(env, Parser(GreetingMethods, stream[1] as nat, []), stream[2..]);
    }
  }

  /** Where the handshake goes after asking for a connection, by what the callbacks say. */
  ghost function Connecting(env: Env, log: seq<Call>, a: SockAddr): (p: Parser) {
    var calls := log + [Connect(a)];
    match env(calls).status
    case Failed => Parser(Fail, 0, calls)
    case InProgress => Parser(WaitConnect, 0, calls)
    case OK =>
      var asked := calls + [DestAddress(false)];
      var answered := asked + [Respond(FinalReply(env(asked)))];
      if env(answered).status == OK then Parser(Success, 1, answered) else Parser(Fail, 0, answered)
  }

  lemma RunResponse(env: Env, m: seq<byte>, log: seq<Call>)
    ensures var asked := log + [DestAddress(false)];
            var answered := asked + [Respond(FinalReply(env(asked)))];
            Run(env, Parser(Response, 0, log), m) ==
            (if env(answered).status == OK then Parser(Success, 1, answered) else Parser(Fail, 0, answered), m)
  {
    hide FinalReply;
    RunStep(env, Parser(Response, 0, log), m);
    assert m[0..] == m;
  }

  /** Reading the address of a connect request. */
  lemma RunAddr4(env: Env, m: seq<byte>, log: seq<Call>)
    ensures var r := Run(env, Parser(RequestAddrV4, 6, log), m);
            if |m| < 6 then r == (Parser(RequestAddrV4, 6, log), m)
            else r == (Connecting(env, log, V4(m[..4], m[4..6])), m[6..])
  {
    hide Run, FinalReply;
    RunStep(env, Parser(RequestAddrV4, 6, log), m);
    if |m| >= 6 {
      RunResponse(env, m[6..], log + [Connect(V4(m[..4], m[4..6]))]);
    }
  }

  lemma RunAddr6(env: Env, m: seq<byte>, log: seq<Call>)
    ensures var r := Run(env, Parser(RequestAddrV6, 18, log), m);
            if |m| < 18 then r == (Parser(RequestAddrV6, 18, log), m)
            else r == (Connecting(env, log, V6(m[..16], m[16..18])), m[18..])
  {
    hide Run, FinalReply;
    RunStep(env, Parser(RequestAddrV6, 18, log), m);
    if |m| >= 18 {
      RunResponse(env, m[18..], log + [Connect(V6(m[..16], m[16..18]))]);
    }
  }

  lemma Dialing(env: Env, log: seq<Call>, a: SockAddr)
    requires Asynchronous(env)
    ensures Connecting(env, log, a) == Parser(WaitConnect, 0, log + [Connect(a)])
  {
    assert (log + [Connect(a)])[|log|] == Connect(a);
  }

  ghost predicate Heads(m: seq<byte>, cmd: byte, atyp: byte) {
    |m| >= 4 && m[0] == 5 && m[1] == cmd && m[2] == 0 && m[3] == atyp
  }

  /** Where the handshake goes after asking to bind: no reply without a port, and no waiting
      without a reply. */
  ghost function Binding(env: Env, log: seq<Call>, port: u16): (p: Parser) {
    var calls := log + [Bind(port)];
    var replied := calls + [Respond(BindReply(env(calls).port))];
    if env(calls).status == Failed then Parser(Fail, 0, calls)
    else if env(replied).status == Failed then Parser(Fail, 0, replied)
    else Parser(WaitAccept, 0, replied)
  }

  lemma RunBind(env: Env, n: nat, m: seq<byte>, log: seq<Call>)
    requires n == 6 || n == 18
    ensures Run(env, Parser(RequestBind, n, log), m) ==
            if |m| < n then (Parser(RequestBind, n, log), m)
            else (Binding(env, log, Ntohs(m[n - 2..n])), m[n..])
  {
    hide Run, BindReply, OnGreetingMethods, OnRequestHeader, OnConnect, OnResponse, Ntohs;
    RunStep(env, Parser(RequestBind, n, log), m);
  }

  /** Reading a request header. */
  lemma RunHeader(env: Env, m: seq<byte>, log: seq<Call>)
    ensures var r := Run(env, Parser(RequestHeader, 4, log), m);
            if Heads(m, 1, ATYP_V4) then r == Run(env, Parser(RequestAddrV4, 6, log), m[4..])
            else if Heads(m, 1, ATYP_V6) then r == Run(env, Parser(RequestAddrV6, 18, log), m[4..])
            else if Heads(m, 2, ATYP_V4) then r == Run(env, Parser(RequestBind, 6, log), m[4..])
            else if Heads(m, 2, ATYP_V6) then r == Run(env, Parser(RequestBind, 18, log), m[4..])
            else if |m| < 4 then r == (Parser(RequestHeader, 4, log), m)
            else r.0.state == Fail && r.0.log == log
  {
    hide Run, OnGreetingMethods, OnBind, OnConnect, OnResponse;
    RunStep(env, Parser(RequestHeader, 4, log), m);
  }

  /** A request, as the parser would have it: header, address and port, and the tail. */
  lemma RequestBytes(m: seq<byte>, cmd: byte, a: SockAddr, tail: seq<byte>)
    requires IsInet(a)
    ensures m == Request(cmd, a) + tail <==>
            if a.V4? then Heads(m, cmd, ATYP_V4) && |m| >= 10 && a == V4(m[4..][..4], m[4..][4..6]) && tail == m[10..]
            else Heads(m, cmd, ATYP_V6) && |m| >= 22 && a == V6(m[4..][..16], m[4..][16..18]) && tail == m[22..]
  {
    var atyp := if a.V4? then ATYP_V4 else ATYP_V6;
    RequestParts(m, [5, cmd, 0, atyp], a.ip, a.port, tail);
    if |m| >= 4 {
      HeadBytes(m, cmd, atyp);
    }
    assert Request(cmd, a) == [5, cmd, 0, atyp] + a.ip + a.port;
  }

  lemma HeadBytes(m: seq<byte>, cmd: byte, atyp: byte)
    requires |m| >= 4
    ensures m[..4] == [5, cmd, 0, atyp] <==> Heads(m, cmd, atyp)
  {
    assert m[..4] == [m[0], m[1], m[2], m[3]];
  }

  lemma RequestParts(m: seq<byte>, head: seq<byte>, ip: seq<byte>, port: seq<byte>, tail: seq<byte>)
    requires |head| == 4 && |port| == 2
    ensures m == head + ip + port + tail <==>
            && |m| >= |ip| + 6 && m[..4] == head && tail == m[|ip| + 6..]
            && ip == m[4..][..|ip|] && port == m[4..][|ip|..|ip| + 2]
  {
    var k := 4 + |ip|;
    if |m| >= k + 2 {
      assert m[4..][..|ip|] == m[4..k] && m[4..][|ip|..|ip| + 2] == m[k..k + 2];
      assert m == m[..4] + m[4..k] + m[k..k + 2] + m[k + 2..];
    }
    if m == head + ip + port + tail {
      assert m[..4] == head && m[4..k] == ip && m[k..k + 2] == port && m[k + 2..] == tail;
    }
  }

  /** The handshake ends up waiting for a connection to `a`, with `tail` left to forward,
      exactly when the stream is a greeting, a request for `a`, and `tail`, and the greeting
      could be answered. */
  lemma {:induction false} ConnectsExactly(env: Env, stream: seq<byte>, a: SockAddr, tail: seq<byte>)
    requires Asynchronous(env) && IsInet(a)
    ensures Run(env, START, stream) == (Parser(WaitConnect, 0, GREETED + [Connect(a)]), tail) <==>
            Asks(stream, a, tail) && env(GREETED).status == OK
  {
    hide Run, Request, AddrPort, Protocol.WellFormed;
    if HasGreeting(stream) {
      var n := 2 + stream[1] as int;
      RunGreeting(env, stream);
      GreetingBytes(stream, n);
      RunConnect(env, stream[n..], a, tail);
      if 0 in stream[2..n] {
        GreetsAt(stream, Request(1, a) + tail, n);
      } else {
        GreetsNot(stream, Request(1, a) + tail);
      }
    } else {
      RunNoGreeting(env, stream);
      GreetsNot(stream, Request(1, a) + tail);
    }
  }

  lemma RunConnect(env: Env, m: seq<byte>, a: SockAddr, tail: seq<byte>)
    requires Asynchronous(env) && IsInet(a)
    ensures Run(env, Parser(RequestHeader, 4, GREETED), m) == (Parser(WaitConnect, 0, GREETED + [Connect(a)]), tail)
            <==> m == Request(1, a) + tail
  {
    hide Run, Request, AddrPort, Asynchronous, Protocol.WellFormed, Connecting;
    RunHeader(env, m, GREETED);
    RequestBytes(m, 1, a, tail);
    var calls := GREETED + [Connect(a)];
    assert calls != GREETED && calls[|GREETED|] == Connect(a);
    if Heads(m, 1, ATYP_V4) {
      RunAddr4(env, m[4..], GREETED);
      if |m| >= 10 {
        assert m[4..][6..] == m[10..];
        var b := V4(m[4..][..4], m[4..][4..6]);
        Dialing(env, GREETED, b);
        assert (GREETED + [Connect(b)])[|GREETED|] == Connect(b);
      }
    } else if Heads(m, 1, ATYP_V6) {
      RunAddr6(env, m[4..], GREETED);
      if |m| >= 22 {
        assert m[4..][18..] == m[22..];
        var b := V6(m[4..][..16], m[4..][16..18]);
        Dialing(env, GREETED, b);
        assert (GREETED + [Connect(b)])[|GREETED|] == Connect(b);
      }
    } else if Heads(m, 2, ATYP_V4) {
      RunBind(env, 6, m[4..], GREETED);
    } else if Heads(m, 2, ATYP_V6) {
      RunBind(env, 18, m[4..], GREETED);
    }
  }

  /** What becomes of a connect request, whatever the callbacks say. */
  lemma {:induction false} ConnectOutcome(env: Env, stream: seq<byte>, a: SockAddr, tail: seq<byte>)
    requires env(GREETED).status == OK && IsInet(a) && Asks(stream, a, tail)
    ensures var calls := GREETED + [Connect(a)];
            var asked := calls + [DestAddress(false)];
            var answered := asked + [Respond(FinalReply(env(asked)))];
            Run(env, START, stream) ==
            (match env(calls).status
             case Failed => Parser(Fail, 0, calls)
             case InProgress => Parser(WaitConnect, 0, calls)
             case OK => if env(answered).status == OK then Parser(Success, 1, answered) else Parser(Fail, 0, answered),
             tail)
  {
    hide Run, Request, AddrPort, FinalReply;
    var n :| 0 <= n <= |stream| && IsGreeting(stream[..n]) && stream[n..] == Request(1, a) + tail;
    var m := stream[n..];
    GreetingBytes(stream, n);
    RunGreeting(env, stream);
    RunHeader(env, m, GREETED);
    RequestBytes(m, 1, a, tail);
    if a.V4? {
      RunAddr4(env, m[4..], GREETED);
      assert m[4..][6..] == m[10..];
    } else {
      RunAddr6(env, m[4..], GREETED);
      assert m[4..][18..] == m[22..];
    }
  }

  /** The length of a greeting is in its second byte. */
  lemma GreetingBytes(stream: seq<byte>, n: nat)
    requires n <= |stream|
    ensures IsGreeting(stream[..n]) <==> HasGreeting(stream) && n == 2 + stream[1] as int && 0 in stream[2..n]
  {
    if n >= 2 {
      assert stream[..n][2..] == stream[2..n];
    }
  }

  lemma GreetsAt(stream: seq<byte>, m: seq<byte>, n: nat)
    requires n <= |stream| && IsGreeting(stream[..n])
    ensures Greets(stream, m) <==> stream[n..] == m
  {
    if Greets(stream, m) {
      var k :| 0 <= k <= |stream| && IsGreeting(stream[..k]) && stream[k..] == m;
      GreetingBytes(stream, k);
      GreetingBytes(stream, n);
    }
  }

  lemma GreetsNot(stream: seq<byte>, m: seq<byte>)
    requires !HasGreeting(stream) || 0 !in stream[2..2 + stream[1] as int]
    ensures !Greets(stream, m)
  {
    forall k | 0 <= k <= |stream|
      ensures !IsGreeting(stream[..k])
    {
      GreetingBytes(stream, k);
    }
  }

  /** A bind request for the port, as the parser would have it. */
  ghost predicate BindsTo(m: seq<byte>, port: u16, tail: seq<byte>) {
    || (Heads(m, 2, ATYP_V4) && |m| >= 10 && m[4..][4..6] == Htons(port) && tail == m[10..])
    || (Heads(m, 2, ATYP_V6) && |m| >= 22 && m[4..][16..18] == Htons(port) && tail == m[22..])
  }

  lemma BindBytes(m: seq<byte>, port: u16, tail: seq<byte>)
    ensures BindsTo(m, port, tail) <==> exists a :: IsInet(a) && a.port == Htons(port) && m == Request(2, a) + tail
  {
    hide Request, Htons;
    if BindsTo(m, port, tail) {
      var a := if m[3] == ATYP_V4 then V4(m[4..][..4], m[4..][4..6]) else V6(m[4..][..16], m[4..][16..18]);
      RequestBytes(m, 2, a, tail);
    }
    if a :| IsInet(a) && a.port == Htons(port) && m == Request(2, a) + tail {
      RequestBytes(m, 2, a, tail);
    }
  }

  lemma RunBindRequest(env: Env, m: seq<byte>, port: u16, tail: seq<byte>)
    requires BindsTo(m, port, tail)
    ensures Run(env, Parser(RequestHeader, 4, GREETED), m) == (Binding(env, GREETED, port), tail)
  {
    hide Run, Binding, Htons, Ntohs;
    RunHeader(env, m, GREETED);
    var n := if m[3] == ATYP_V4 then 6 else 18;
    RunBind(env, n, m[4..], GREETED);
    assert m[4..][n..] == m[n + 4..];
    PortRoundTrip(port);
  }

  /** What becomes of a bind request, whatever the callbacks say: without a port no reply is
      sent, and without a reply nobody is waited for. */
  lemma {:induction false} BindOutcome(env: Env, stream: seq<byte>, port: u16, tail: seq<byte>)
    requires env(GREETED).status == OK && AsksBind(stream, port, tail)
    ensures var calls := GREETED + [Bind(port)];
            var replied := calls + [Respond(BindReply(env(calls).port))];
            Run(env, START, stream) ==
            (if env(calls).status == Failed then Parser(Fail, 0, calls)
             else if env(replied).status == Failed then Parser(Fail, 0, replied)
             else Parser(WaitAccept, 0, replied),
             tail)
  {
    hide Run, Request, BindsTo, Htons, BindReply;
    var a :| IsInet(a) && a.port == Htons(port) && Greets(stream, Request(2, a) + tail);
    var n :| 0 <= n <= |stream| && IsGreeting(stream[..n]) && stream[n..] == Request(2, a) + tail;
    GreetingBytes(stream, n);
    RunGreeting(env, stream);
    BindBytes(stream[n..], port, tail);
    RunBindRequest(env, stream[n..], port, tail);
  }

  /** Behind the greeting: the handshake waits for a peer only after a bind request. */
  lemma RunAccepts(env: Env, m: seq<byte>)
    ensures var r := Run(env, Parser(RequestHeader, 4, GREETED), m);
            r.0.state == WaitAccept ==> exists port :: BindsTo(m, port, r.1) && r.0.log == BindLog(env, port)
  {
    hide Run, Htons, BindReply, FinalReply;
    RunHeader(env, m, GREETED);
    if Heads(m, 1, ATYP_V4) {
      RunAddr4(env, m[4..], GREETED);
    } else if Heads(m, 1, ATYP_V6) {
      RunAddr6(env, m[4..], GREETED);
    } else if Heads(m, 2, ATYP_V4) {
      RunBind(env, 6, m[4..], GREETED);
      if |m| >= 10 {
        assert BindsTo(m, Ntohs(m[4..][4..6]), m[10..]) && m[4..][6..] == m[10..];
      }
    } else if Heads(m, 2, ATYP_V6) {
      RunBind(env, 18, m[4..], GREETED);
      if |m| >= 22 {
        assert BindsTo(m, Ntohs(m[4..][16..18]), m[22..]) && m[4..][18..] == m[22..];
      }
    }
  }

  /** The handshake ends up waiting for a peer at `port`, with `tail` left to forward, exactly
      when the stream is a greeting, a bind request for the port with an address of either
      family, and `tail`, and neither the greeting's reply nor the bind nor its reply fails. */
  lemma {:induction false} BindsExactly(env: Env, stream: seq<byte>, port: u16, tail: seq<byte>)
    ensures Run(env, START, stream) == (Parser(WaitAccept, 0, BindLog(env, port)), tail) <==>
            AsksBind(stream, port, tail) && env(GREETED).status == OK && !BindFails(env, port)
  {
    hide Run, AsksBind, BindsTo, BindReply;
    var r := Run(env, START, stream);
    if AsksBind(stream, port, tail) && env(GREETED).status == OK {
      BindOutcome(env, stream, port, tail);
    }
    if r == (Parser(WaitAccept, 0, BindLog(env, port)), tail) {
      AcceptsAsked(env, stream);
      var p :| AsksBind(stream, p, tail) && r.0.log == BindLog(env, p) && env(GREETED).status == OK;
      assert BindLog(env, p)[1] == Bind(p) && BindLog(env, port)[1] == Bind(port);
      BindOutcome(env, stream, p, tail);
    }
  }

  lemma AcceptsAsked(env: Env, stream: seq<byte>)
    requires Run(env, START, stream).0.state == WaitAccept
    ensures var r := Run(env, START, stream);
            exists p :: AsksBind(stream, p, r.1) && r.0.log == BindLog(env, p) && env(GREETED).status == OK
  {
    hide Run, BindsTo, Request, Htons, BindLog, Rejected;
    var r := Run(env, START, stream);
    if !HasGreeting(stream) {
      RunNoGreeting(env, stream);
    } else {
      var n := 2 + stream[1] as int;
      RunGreeting(env, stream);
      GreetingBytes(stream, n);
      RunAccepts(env, stream[n..]);
      var p :| BindsTo(stream[n..], p, r.1) && r.0.log == BindLog(env, p);
      BindBytes(stream[n..], p, r.1);
      var a :| IsInet(a) && a.port == Htons(p) && stream[n..] == Request(2, a) + r.1;
      assert Greets(stream, Request(2, a) + r.1);
      assert AsksBind(stream, p, r.1);
    }
  }

  /** Behind the greeting: failure on an unknown header, or after a bind request; otherwise a
      request is complete or the handshake waits for the rest of it. */
  lemma RunRequest(env: Env, m: seq<byte>)
    requires Asynchronous(env)
    ensures var r := Run(env, Parser(RequestHeader, 4, GREETED), m);
            || (r.0.state == Fail && |m| >= 4 && !KnownHeader(m))
            || (!Stopped(r.0) && |r.1| < r.0.required && (|m| >= 4 ==> KnownHeader(m)))
            || (exists a :: IsInet(a) && r.0 == Parser(WaitConnect, 0, GREETED + [Connect(a)]))
            || (exists port :: BindsTo(m, port, r.1) && r.0 == Binding(env, GREETED, port))
  {
    hide Run, Asynchronous, Binding, Connecting, Htons;
    RunHeader(env, m, GREETED);
    if Heads(m, 1, ATYP_V4) {
      RunAddr4(env, m[4..], GREETED);
      if |m| >= 10 {
        assert IsInet(V4(m[4..][..4], m[4..][4..6]));
        Dialing(env, GREETED, V4(m[4..][..4], m[4..][4..6]));
      }
    } else if Heads(m, 1, ATYP_V6) {
      RunAddr6(env, m[4..], GREETED);
      if |m| >= 22 {
        assert IsInet(V6(m[4..][..16], m[4..][16..18]));
        Dialing(env, GREETED, V6(m[4..][..16], m[4..][16..18]));
      }
    } else if Heads(m, 2, ATYP_V4) {
      RunBind(env, 6, m[4..], GREETED);
      if |m| >= 10 {
        assert BindsTo(m, Ntohs(m[4..][4..6]), m[10..]) && m[4..][6..] == m[10..];
      }
    } else if Heads(m, 2, ATYP_V6) {
      RunBind(env, 18, m[4..], GREETED);
      if |m| >= 22 {
        assert BindsTo(m, Ntohs(m[4..][16..18]), m[22..]) && m[4..][18..] == m[22..];
      }
    }
  }

  lemma BoundHeader(m: seq<byte>, port: u16, tail: seq<byte>)
    requires BindsTo(m, port, tail)
    ensures |m| >= 4 && KnownHeader(m)
  {
  }

  lemma AsksBindAt(stream: seq<byte>, port: u16, tail: seq<byte>)
    requires Offers(stream)
    ensures AsksBind(stream, port, tail) <==> BindsTo(stream[2 + stream[1] as int..], port, tail)
  {
    hide Request, Htons, BindsTo;
    var n := 2 + stream[1] as int;
    GreetingBytes(stream, n);
    BindBytes(stream[n..], port, tail);
    forall a
      ensures Greets(stream, Request(2, a) + tail) <==> stream[n..] == Request(2, a) + tail
    {
      GreetsAt(stream, Request(2, a) + tail, n);
    }
  }

  /** The handshake fails exactly on the streams that go wrong and on those that a callback
      lets down. Every other stream is a connect request, or a bind request, or the handshake
      waits for more of it. */
  lemma {:induction false} FailsExactly(env: Env, stream: seq<byte>)
    requires Asynchronous(env)
    ensures Run(env, START, stream).0.state == Fail <==> Rejected(stream) || LetDown(env, stream)
    ensures var r := Run(env, START, stream);
            || r.0.state == Fail
            || (!Stopped(r.0) && |r.1| < r.0.required)
            || (exists a :: IsInet(a) && Asks(stream, a, r.1))
            || (exists port :: AsksBind(stream, port, r.1))
  {
    hide Run, Asks, AsksBind, Asynchronous, KnownHeader, BindFails, BindLog, Protocol.WellFormed;
    if !Offers(stream) {
      NotOffered(env, stream);
    } else if env(GREETED).status != OK {
      RunGreeting(env, stream);
    } else {
      Requested(env, stream);
    }
  }

  lemma NotOffered(env: Env, stream: seq<byte>)
    requires !Offers(stream)
    ensures Run(env, START, stream).0.state == Fail <==> Rejected(stream)
    ensures !LetDown(env, stream)
    ensures var r := Run(env, START, stream); r.0.state == Fail || (!Stopped(r.0) && |r.1| < r.0.required)
  {
    hide Run, AsksBind, KnownHeader, BindFails;
    if HasGreeting(stream) {
      RunGreeting(env, stream);
    } else {
      RunNoGreeting(env, stream);
    }
    forall port, tail
      ensures !AsksBind(stream, port, tail)
    {
      NeverAsks(stream, port, tail);
    }
  }

  lemma NeverAsks(stream: seq<byte>, port: u16, tail: seq<byte>)
    requires !Offers(stream)
    ensures !AsksBind(stream, port, tail)
  {
    forall a
      ensures !Greets(stream, Request(2, a) + tail)
    {
      GreetsNot(stream, Request(2, a) + tail);
    }
  }

  lemma Requested(env: Env, stream: seq<byte>)
    requires Asynchronous(env) && Offers(stream) && env(GREETED).status == OK
    ensures Run(env, START, stream).0.state == Fail <==> Rejected(stream) || LetDown(env, stream)
    ensures var r := Run(env, START, stream);
            || r.0.state == Fail
            || (!Stopped(r.0) && |r.1| < r.0.required)
            || (exists a :: IsInet(a) && Asks(stream, a, r.1))
            || (exists port :: AsksBind(stream, port, r.1))
  {
    hide Run, Asks, AsksBind, Asynchronous, KnownHeader, BindFails, BindsTo, Protocol.WellFormed;
    var r, m := Run(env, START, stream), stream[2 + stream[1] as int..];
    RunGreeting(env, stream);
    RunRequest(env, m);
    forall port, tail | AsksBind(stream, port, tail)
      ensures BindsTo(m, port, tail) && |m| >= 4 && KnownHeader(m) && (r.0.state == Fail <==> BindFails(env, port))
    {
      AsksBindAt(stream, port, tail);
      BoundHeader(m, port, tail);
      BindOutcome(env, stream, port, tail);
      FailsToBind(env, port);
    }
    if a :| IsInet(a) && r.0 == Parser(WaitConnect, 0, GREETED + [Connect(a)]) {
      ConnectsExactly(env, stream, a, r.1);
      ConnectHeader(env, m, a, r.1);
    } else if port :| BindsTo(m, port, r.1) && r.0 == Binding(env, GREETED, port) {
      AsksBindAt(stream, port, r.1);
    }
  }

  lemma FailsToBind(env: Env, port: u16)
    ensures Binding(env, GREETED, port).state == Fail <==> BindFails(env, port)
  {
  }

  lemma ConnectHeader(env: Env, m: seq<byte>, a: SockAddr, tail: seq<byte>)
    requires Asynchronous(env) && IsInet(a)
    requires Run(env, Parser(RequestHeader, 4, GREETED), m) == (Parser(WaitConnect, 0, GREETED + [Connect(a)]), tail)
    ensures KnownHeader(m)
  {
    hide Run, Request, Asynchronous;
    RunConnect(env, m, a, tail);
    RequestBytes(m, 1, a, tail);
  }
}
