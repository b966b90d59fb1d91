/** Server and clients understand each other, byte for byte. */
module Agreement {
  import opened Blocks
  import opened Protocol
  import opened Socks5
  import opened Handshake
  import Client
  import SessionPool

  /** How much got through of a write that failed; it may depend on all calls made so far. */
  type Cut = seq<Call> -> nat

  /** What arrives of a message whose write failed: not all of it. */
  function Part(m: seq<byte>, n: nat): (p: seq<byte>) {
    if n < |m| then m[..n] else if m == [] then [] else m[..|m| - 1]
  }

  /** All replies among the calls were written in full. */
  ghost predicate Written(env: Env, log: seq<Call>) {
    log == [] ||
    (Written(env, log[..|log| - 1]) && (log[|log| - 1].Respond? ==> env(log).status == OK))
  }

  /** What the client hears of the replies: nothing after a write that failed. */
  ghost function Heard(env: Env, cut: Cut, log: seq<Call>): (m: seq<byte>) {
    if log == [] then []
    else
      var before, last := log[..|log| - 1], log[|log| - 1];
      if !last.Respond? || !Written(env, before) then Heard(env, cut, before)
      else Heard(env, cut, before) + if env(log).status == OK then last.data else Part(last.data, cut(log))
  }

  /** All that arrives at the client: the replies and then the bytes of the tunnel. */
  ghost function Arrives(env: Env, cut: Cut, log: seq<Call>, tunnel: seq<byte>): (m: seq<byte>) {
    Heard(env, cut, log) + if Written(env, log) then tunnel else []
  }

  lemma HeardMore(env: Env, cut: Cut, log: seq<Call>, c: Call)
    requires Written(env, log)
    ensures Written(env, log + [c]) <==> (c.Respond? ==> env(log + [c]).status == OK)
    ensures Heard(env, cut, log + [c]) == Heard(env, cut, log) +
            if !c.Respond? then [] else if env(log + [c]).status == OK then c.data else Part(c.data, cut(log + [c]))
  {
    assert (log + [c])[..|log|] == log;
  }

  lemma HeardNothing(env: Env, cut: Cut)
    ensures Written(env, []) && Heard(env, cut, []) == []
  {
  }

  lemma HeardGreeting(env: Env, cut: Cut)
    requires env(GREETED).status == OK
    ensures Written(env, GREETED) && Heard(env, cut, GREETED) == GREETING_REPLY
  {
    hide Heard, Written;
    HeardNothing(env, cut);
    HeardMore(env, cut, [], Respond(GREETING_REPLY));
    assert [] + [Respond(GREETING_REPLY)] == GREETED;
  }

  /** The server takes exactly the client's hello and connects to the client's address. */
  lemma {:induction false} HelloUnderstood(env: Env, a: SockAddr, tunnel: seq<byte>)
    requires Asynchronous(env) && env(GREETED).status == OK && IsInet(a)
    ensures Run(env, START, Client.Hello(a) + tunnel) == (Parser(WaitConnect, 0, GREETED + [Connect(a)]), tunnel)
  {
    hide Run, Protocol.WellFormed, Asynchronous;
    var stream := Client.Hello(a) + tunnel;
    assert stream[..3] == [5, 1, 0] && stream[3..] == Request(1, a) + tunnel;
    assert IsGreeting(stream[..3]) by {
      assert stream[..3][2..] == [0 as byte];
      assert (0 as byte) in stream[..3][2..];
    }
    ConnectsExactly(env, stream, a, tunnel);
  }

  /** The client takes exactly a successful reply, whatever follows it. */
  lemma ReplyUnderstood(a: SockAddr, tunnel: seq<byte>)
    requires IsInet(a)
    ensures var reply := GREETING_REPLY + ([5, 0, 0] + AddrPort(a));
            Client.Verdict(reply + tunnel) == (0, |reply|)
  {
    var reply := GREETING_REPLY + ([5, 0, 0] + AddrPort(a));
    var stream := reply + tunnel;
    assert stream[..5] == [stream[0], stream[1], stream[2], stream[3], stream[4]];
    assert stream[5] == if a.V4? then ATYP_V4 else ATYP_V6;
  }

  lemma ErrorUnderstood(tunnel: seq<byte>)
    ensures ERROR_REPLY == [5, 1, 0, 1, 0, 0, 0, 0, 0, 0]
    ensures Client.Verdict(GREETING_REPLY + ERROR_REPLY + tunnel) == (-1, 0)
  {
    var stream := GREETING_REPLY + ERROR_REPLY + tunnel;
    assert stream[3] == 1;
    assert stream[..5][3] == 1;
  }

  /** A success reply that does not arrive in full is no success, and neither is an error
      reply. */
  lemma PartUnderstood(r: Reply, n: nat)
    requires IsInet(r.addr)
    ensures Client.Verdict(GREETING_REPLY + Part(FinalReply(r), n)).0 != 0
  {
    var reply := FinalReply(r);
    var stream := GREETING_REPLY + Part(reply, n);
    if |stream| >= 7 {
      assert stream[3] == reply[1] && stream[..5][3] == stream[3];
      assert stream[5] == reply[3];
    }
  }

  /** The calls up to the one for the address to report. */
  ghost function Asked(a: SockAddr): (log: seq<Call>) {
    GREETED + [Connect(a)] + [DestAddress(false)]
  }

  /** All calls of a handshake for `a`. */
  ghost function Answered(env: Env, a: SockAddr): (log: seq<Call>) {
    Asked(a) + [Respond(FinalReply(env(Asked(a))))]
  }

  lemma AnswerArrives(env: Env, cut: Cut, a: SockAddr, tunnel: seq<byte>)
    requires env(GREETED).status == OK
    ensures var reply := FinalReply(env(Asked(a)));
            Arrives(env, cut, Answered(env, a), tunnel) == GREETING_REPLY +
              if env(Answered(env, a)).status == OK then reply + tunnel else Part(reply, cut(Answered(env, a)))
  {
    hide Heard, Written, FinalReply;
    HeardGreeting(env, cut);
    HeardMore(env, cut, GREETED, Connect(a));
    HeardMore(env, cut, GREETED + [Connect(a)], DestAddress(false));
    HeardMore(env, cut, Asked(a), Respond(FinalReply(env(Asked(a)))));
  }

  /** What the client makes of the replies and the destination's bytes behind them: success
      exactly when the server could tell its address and could write the final reply, and
      then it takes the two replies and leaves the destination's bytes. */
  lemma {:induction false} ReplyHeard(env: Env, cut: Cut, a: SockAddr, tunnel: seq<byte>)
    requires env(GREETED).status == OK && IsInet(env(Asked(a)).addr)
    ensures var stream := Arrives(env, cut, Answered(env, a), tunnel);
            var (result, taken) := Client.Verdict(stream);
            && (result == 0 <==> env(Asked(a)).status == OK && env(Answered(env, a)).status == OK)
            && (result == 0 ==> taken <= |stream| && stream[taken..] == tunnel)
  {
    hide Client.Verdict, Arrives, AddrPort, Protocol.WellFormed;
    var r := env(Asked(a));
    AnswerArrives(env, cut, a, tunnel);
    if env(Answered(env, a)).status != OK {
      PartUnderstood(r, cut(Answered(env, a)));
    } else {
      assert GREETING_REPLY + (FinalReply(r) + tunnel) == GREETING_REPLY + FinalReply(r) + tunnel;
      if r.status == OK {
        ReplyUnderstood(r.addr, tunnel);
      } else {
        ErrorUnderstood(tunnel);
      }
    }
  }

  /** The same if the connection breaks after n bytes have arrived: all of the two replies
      must be among them. */
  lemma {:induction false} ReplyCut(env: Env, cut: Cut, a: SockAddr, tunnel: seq<byte>, n: nat)
    requires env(GREETED).status == OK && IsInet(env(Asked(a)).addr)
    requires n <= |Arrives(env, cut, Answered(env, a), tunnel)|
    ensures var stream := Arrives(env, cut, Answered(env, a), tunnel)[..n];
            var (result, taken) := Client.Verdict(stream);
            && (result == 0 <==> && env(Asked(a)).status == OK && env(Answered(env, a)).status == OK
                                 && n >= |GREETING_REPLY + FinalReply(env(Asked(a)))|)
            && (result == 0 ==> taken <= n && stream[taken..] <= tunnel)
  {
    hide Client.Verdict, Arrives, AddrPort, Protocol.WellFormed, FinalReply;
    var stream := Arrives(env, cut, Answered(env, a), tunnel);
    ReplyHeard(env, cut, a, tunnel);
    AnswerArrives(env, cut, a, tunnel);
    Client.VerdictCut(stream, n);
    var taken := Client.Verdict(stream).1;
    if taken <= n {
      assert stream[..n][taken..] == stream[taken..][..n - taken];
    }
  }

  /** A whole handshake: the server hears the client's address and leaves the client's
      tunnel bytes, and starts to forward whatever happened to the final reply. The client
      hears success exactly when the server could tell the address it connected from and
      could write the reply, and then leaves the server's tunnel bytes. */
  lemma {:induction false} EndToEnd(env: Env, cut: Cut, a: SockAddr, upward: seq<byte>, downward: seq<byte>)
    requires Asynchronous(env) && env(GREETED).status == OK && IsInet(a) && IsInet(env(Asked(a)).addr)
    ensures var (p, rest) := Run(env, START, Client.Hello(a) + upward);
            var (q, ok) := ConnectionSucceed(env, p);
            var stream := Arrives(env, cut, q.log, downward);
            var (result, taken) := Client.Verdict(stream);
            && p.log == GREETED + [Connect(a)] && rest == upward && ok && q.state == Success
            && (result == 0 <==> env(Asked(a)).status == OK && env(q.log).status == OK)
            && (result == 0 ==> taken <= |stream| && stream[taken..] == downward)
  {
    hide Run, Asynchronous, Protocol.WellFormed, Client.Verdict, AddrPort, FinalReply, Arrives, Client.Hello;
    HelloUnderstood(env, a, upward);
    ReplyHeard(env, cut, a, downward);
  }

  /** Callbacks that work until the final reply, which cannot be written. */
  ghost function Unheard(a: SockAddr): (env: Env) {
    (log: seq<Call>) =>
      if log != [] && log[|log| - 1].Connect? then Reply(InProgress, 0, a)
      else if |log| <= 3 then Reply(OK, 0, a) else Reply(Failed, 0, a)
  }

  /** The reply can be lost: with these callbacks the server forwards and the client, however
      much of the reply gets through, has failed. */
  lemma {:induction false} LostReply(cut: Cut, a: SockAddr, upward: seq<byte>, downward: seq<byte>)
    requires IsInet(a)
    ensures Asynchronous(Unheard(a)) && Unheard(a)(GREETED).status == OK && Unheard(a)(Asked(a)) == Reply(OK, 0, a)
    ensures var (p, rest) := Run(Unheard(a), START, Client.Hello(a) + upward);
            var (q, ok) := ConnectionSucceed(Unheard(a), p);
            && ok && q.state == Success && rest == upward
            && Client.Verdict(Arrives(Unheard(a), cut, q.log, downward)).0 != 0
  {
    hide Run, Protocol.WellFormed, Client.Verdict, AddrPort, FinalReply, Arrives, Client.Hello;
    EndToEnd(Unheard(a), cut, a, upward, downward);
  }

  // ---------------------------------------------------------------- the session pool

  /** The 13 bytes the pool sends: greeting and bind request. */
  function BindRequest(port: u16): (m: seq<byte>) {
    [5, 1, 0] + [5, 2, 0, 1] + [0, 0, 0, 0] + Htons(port)
  }

  /** The pool's reading of the 12 bytes it gets back: the port that was bound. */
  function BoundPort(m: seq<byte>): (p: u16)
    requires |m| == 12
  {
    Ntohs(m[10..12])
  }

  /** The server hears the port, takes exactly the request, and the pool hears the port the
      server bound. */
  lemma {:induction false} BindRoundTrip(env: Env, cut: Cut, port: u16, tail: seq<byte>)
    requires env(GREETED).status == OK && env(GREETED + [Bind(port)]).status == OK
    requires env(BindLog(env, port)).status == OK
    ensures |BindRequest(port)| == 13
    ensures Run(env, START, BindRequest(port) + tail) == (Parser(WaitAccept, 0, BindLog(env, port)), tail)
    ensures var first := Heard(env, cut, BindLog(env, port));
            && Written(env, BindLog(env, port))
            && |first| == 12 && first[3] == 0 && BoundPort(first) == env(GREETED + [Bind(port)]).port
            && first == [5, 0] + [5, 0, 0, 1, 0, 0, 0, 0] + Htons(env(GREETED + [Bind(port)]).port)
  {
    hide Run, Heard, Written, BoundPort, BindReply, BindRequest;
    var stream := BindRequest(port) + tail;
    BindRequestParts(port, tail);
    assert (0 as byte) in stream[2..3];
    RunGreeting(env, stream);
    RunHeader(env, stream[3..], GREETED);
    PortRoundTrip(port);
    RunBind(env, 6, stream[3..][4..], GREETED);
    BindHeard(env, cut, port);
    BoundHeard(env(GREETED + [Bind(port)]).port);
  }

  lemma BindRequestParts(port: u16, tail: seq<byte>)
    ensures var stream := BindRequest(port) + tail;
            var m := stream[3..];
            && |BindRequest(port)| == 13
            && stream[0] == 5 && stream[1] == 1 && stream[2..3] == [0 as byte]
            && m[0] == 5 && m[1] == 2 && m[2] == 0 && m[3] == 1
            && m[4..][4..6] == Htons(port) && m[4..][6..] == tail
  {
    var stream := BindRequest(port) + tail;
    var rest := [0, 0, 0, 0] + Htons(port) + tail;
    assert stream == [5, 1, 0, 5, 2, 0, 1] + rest;
    assert stream[3..][4..] == rest;
  }

  lemma BindHeard(env: Env, cut: Cut, port: u16)
    requires env(GREETED).status == OK && env(BindLog(env, port)).status == OK
    ensures Written(env, BindLog(env, port))
    ensures Heard(env, cut, BindLog(env, port)) == GREETING_REPLY + BindReply(env(GREETED + [Bind(port)]).port)
  {
    hide Heard, Written, BindReply;
    HeardGreeting(env, cut);
    HeardMore(env, cut, GREETED, Bind(port));
    HeardMore(env, cut, GREETED + [Bind(port)], Respond(BindReply(env(GREETED + [Bind(port)]).port)));
  }

  lemma BoundHeard(bound: u16)
    ensures var m := GREETING_REPLY + BindReply(bound);
            && |m| == 12 && m[3] == 0 && BoundPort(m) == bound
            && m == [5, 0] + [5, 0, 0, 1, 0, 0, 0, 0] + Htons(bound)
  {
    var m := GREETING_REPLY + BindReply(bound);
    assert m[10..12] == Htons(bound);
    PortRoundTrip(bound);
  }

  /** The size and the layout of the second reply: it is the 22 bytes the pool reads exactly
      when the peer's address is known and is an IPv6 address; then the pool finds REP, the
      address and the port where it looks for them. */
  lemma SecondReply(r: Reply)
    requires IsInet(r.addr)
    ensures |FinalReply(r)| == (if r.status == OK && r.addr.V6? then 22 else 10)
    ensures |FinalReply(r)| == 22 ==>
              FinalReply(r)[1] == 0 && FinalReply(r)[4..20] == r.addr.ip && FinalReply(r)[20..22] == r.addr.port
  {
  }

  /** What comes behind the first reply: the second reply, and the bytes of the peer unless
      writing the reply failed. */
  ghost function Second(r: Reply, written: bool, n: nat, peer: seq<byte>): (s: seq<byte>) {
    if written then FinalReply(r) + peer else Part(FinalReply(r), n)
  }

  /** The read on connection `conn` can end with n bytes in `buf` if `stream` is all that comes. */
  ghost predicate Reads(conn: nat, stream: seq<byte>, n: nat, buf: seq<byte>) {
    && |buf| == SessionPool.SECOND_REPLY_SIZE && SessionPool.Brings(conn, n)
    && n <= |stream| && buf[..n] == stream[..n]
  }

  /** When the read can end at all, without an error: on the connection of the listen call
      with the first byte, on all others with the last of 22 bytes. */
  lemma ReadEnds(conn: nat, stream: seq<byte>)
    ensures (exists n, buf :: Reads(conn, stream, n, buf)) <==>
            |stream| >= if conn == 0 then 1 else SessionPool.SECOND_REPLY_SIZE
  {
    if |stream| >= if conn == 0 then 1 else SessionPool.SECOND_REPLY_SIZE {
      var n := if conn == 0 then 1 else SessionPool.SECOND_REPLY_SIZE;
      assert Reads(conn, stream, n, stream[..n] + seq(SessionPool.SECOND_REPLY_SIZE - n, _ => 0));
    }
  }

  /** What the pool makes of a second reply about a peer with an IPv6 address, as this server
      sends it: the read that ends brings the pool to hand the connection over, with the
      peer's address and port and with all bytes of the peer left, if and only if the peer's
      address was known, the reply was written, and the read brought all 22 bytes. In any
      other case the pool gives the connection up. */
  lemma SecondRead(r: Reply, written: bool, m: nat, peer: seq<byte>, p: SessionPool.Pool, i: nat, n: nat,
                   buf: seq<byte>)
    requires IsInet(r.addr) && r.addr.V6? && i < |p.slots| && !p.stop
    requires Reads(p.slots[i].conn, Second(r, written, m, peer), n, buf)
    ensures var q := SessionPool.OnSecondReply(p, i, false, n, buf);
            var good := r.status == OK && written && n == SessionPool.SECOND_REPLY_SIZE;
            && q == (if good then SessionPool.Confirm(p, i, SessionPool.NewConnection(r.addr.ip, r.addr.port))
                     else SessionPool.Retry(p, i))
            && (good ==> Second(r, written, m, peer)[n..] == peer)
            && (q.confirmed != p.confirmed || q.errors == p.errors ==> good)
  {
    hide SessionPool.Confirm, SessionPool.Retry;
    var s := Second(r, written, m, peer);
    SecondReply(r);
    RetryCounts(p, i);
    if n == SessionPool.SECOND_REPLY_SIZE {
      assert buf == s[..22];
      if r.status == OK && written {
        assert buf == FinalReply(r) && s[22..] == peer;
      } else {
        assert buf[1] == s[1];
      }
    }
  }

  lemma RetryCounts(p: SessionPool.Pool, i: nat)
    requires i < |p.slots|
    ensures SessionPool.Retry(p, i).errors == p.errors + 1 && SessionPool.Retry(p, i).confirmed == p.confirmed
  {
  }

  /** The peer's address may be unknown: the server sends the error reply and forwards all the
      same. On any but the first connection the pool then waits until the peer has sent
      twelve bytes, and takes them for part of the reply before it gives the connection up. */
  lemma ErrorRead(r: Reply, peer: seq<byte>, conn: nat, n: nat, buf: seq<byte>)
    requires r.status != OK && conn != 0
    ensures Reads(conn, Second(r, true, 0, peer), n, buf) ==>
              |peer| >= 12 && buf == ERROR_REPLY + peer[..12] && Second(r, true, 0, peer)[n..] == peer[12..]
    ensures |peer| < 12 ==> !Reads(conn, Second(r, true, 0, peer), n, buf)
  {
    var s := ERROR_REPLY + peer;
    if |s| >= 22 {
      assert s[..22] == ERROR_REPLY + peer[..12] && s[22..] == peer[12..];
    }
    assert |buf| == 22 ==> buf[..22] == buf;
  }

  /** A server that reports IPv4 addresses, which this one does not for a bind, would make the
      pool take twelve bytes of the peer for part of the address. */
  lemma ForeignRead(r: Reply, peer: seq<byte>, buf: seq<byte>)
    requires IsInet(r.addr) && r.addr.V4? && r.status == OK && |peer| >= 12
    requires Reads(1, Second(r, true, 0, peer), SessionPool.SECOND_REPLY_SIZE, buf)
    ensures buf[1] == 0 && Second(r, true, 0, peer)[22..] == peer[12..]
    ensures SessionPool.Packed(buf) ==
            SessionPool.NewConnection(r.addr.ip + r.addr.port + peer[..10], peer[10..12])
  {
    var s := FinalReply(r) + peer;
    assert buf == s[..22] && s[..22] == FinalReply(r) + peer[..12] && s[22..] == peer[12..];
    assert buf[4..20] == r.addr.ip + r.addr.port + peer[..10] && buf[20..22] == peer[10..12];
  }

  /** The calls up to the one for the peer's address, and all calls of a bind. */
  ghost function PeerAsked(env: Env, port: u16): (log: seq<Call>) {
    BindLog(env, port) + [DestAddress(true)]
  }

  ghost function PeerAnswered(env: Env, port: u16): (log: seq<Call>) {
    PeerAsked(env, port) + [Respond(FinalReply(env(PeerAsked(env, port))))]
  }

  lemma PeerAnswerArrives(env: Env, cut: Cut, port: u16, peer: seq<byte>)
    requires Written(env, BindLog(env, port))
    ensures var r, q := env(PeerAsked(env, port)), PeerAnswered(env, port);
            Arrives(env, cut, q, peer) ==
              Heard(env, cut, BindLog(env, port)) + Second(r, env(q).status == OK, cut(q), peer)
  {
    hide Heard, Written, FinalReply, BindLog;
    HeardMore(env, cut, BindLog(env, port), DestAddress(true));
    HeardMore(env, cut, PeerAsked(env, port), Respond(FinalReply(env(PeerAsked(env, port)))));
  }

  /** The server reports IPv6 addresses of peers: it listens on IPv6 sockets only. */
  ghost predicate ListensOnV6(env: Env) {
    forall log: seq<Call> :: log != [] && log[|log| - 1] == DestAddress(true) ==>
      IsInet(env(log).addr) && env(log).addr.V6?
  }

  /** A whole bind, with `peer` the bytes that come from the peer: the pool gets the first
      reply in 12 bytes. Its read for the second reply, if it ends without an error, leads to
      the hand-over, with the peer's address and port and all bytes of the peer left, if and
      only if the server could tell the peer's address, the reply could be written, and the
      read brought all 22 bytes, as it does on every connection but the first. Otherwise the
      pool gives the connection up. The server forwards in any case. */
  lemma {:induction false} BindEndToEnd(env: Env, cut: Cut, port: u16, tail: seq<byte>, peer: seq<byte>,
                                        p: SessionPool.Pool, i: nat, n: nat, buf: seq<byte>)
    requires env(GREETED).status == OK && env(GREETED + [Bind(port)]).status == OK
    requires env(BindLog(env, port)).status == OK && ListensOnV6(env) && i < |p.slots| && !p.stop
    ensures Run(env, START, BindRequest(port) + tail) == (Parser(WaitAccept, 0, BindLog(env, port)), tail)
    ensures ConnectionSucceed(env, Parser(WaitAccept, 0, BindLog(env, port))) ==
            (Parser(Success, 0, PeerAnswered(env, port)), true)
    ensures var r, stream := env(PeerAsked(env, port)), Arrives(env, cut, PeerAnswered(env, port), peer);
            && |stream| >= 12 && stream[3] == 0 && BoundPort(stream[..12]) == env(GREETED + [Bind(port)]).port
            && (Reads(p.slots[i].conn, stream[12..], n, buf) ==>
                  var q := SessionPool.OnSecondReply(p, i, false, n, buf);
                  var good := && r.status == OK && env(PeerAnswered(env, port)).status == OK
                              && (p.slots[i].conn != 0 || n == SessionPool.SECOND_REPLY_SIZE);
                  && (q == SessionPool.Confirm(p, i, SessionPool.NewConnection(r.addr.ip, r.addr.port)) <==> good)
                  && (q == SessionPool.Retry(p, i) <==> !good)
                  && (good ==> stream[12 + n..] == peer))
  {
    hide Run, Heard, Written, BindRequest, BindReply, FinalReply, BoundPort, AddrPort, BindLog, Arrives, Second,
         Protocol.WellFormed, SessionPool.OnSecondReply, SessionPool.Confirm, SessionPool.Retry;
    BindRoundTrip(env, cut, port, tail);
    var r, q := env(PeerAsked(env, port)), PeerAnswered(env, port);
    var first, second := Heard(env, cut, BindLog(env, port)), Second(r, env(q).status == OK, cut(q), peer);
    PeerAnswerArrives(env, cut, port, peer);
    Behind(first, second);
    if Reads(p.slots[i].conn, second, n, buf) {
      Behind(first + second[..n], second[n..]);
      assert first + second == first + second[..n] + second[n..];
      SecondRead(r, env(q).status == OK, cut(q), peer, p, i, n, buf);
      NeverBoth(p, i, SessionPool.NewConnection(r.addr.ip, r.addr.port));
    }
  }

  lemma NeverBoth(p: SessionPool.Pool, i: nat, m: SessionPool.Micro)
    requires i < |p.slots|
    ensures SessionPool.Confirm(p, i, m) != SessionPool.Retry(p, i)
  {
  }

  lemma Behind(a: seq<byte>, b: seq<byte>)
    ensures (a + b)[|a|..] == b && (a + b)[..|a|] == a && forall j :: 0 <= j < |a| ==> (a + b)[j] == a[j]
  {
  }
}
