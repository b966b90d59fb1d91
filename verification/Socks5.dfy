/** The server side of the SOCKS5 handshake (RFC 1928) as a function of the bytes received
    and of the outcomes of the callbacks. */
module Socks5 {
  import opened Blocks
  import opened Protocol

  datatype State =
    | GreetingHeader
    | GreetingMethods
    | RequestHeader
    | RequestAddrV4
    | RequestAddrV6
    | RequestBind
    | WaitConnect
    | WaitAccept
    | Response
    | Success
    | Fail

  datatype Status = OK | InProgress | Failed

  /** A call of one of the callbacks, and what it returns. */
  datatype Call =
    | Respond(data: seq<byte>)
    | Connect(dest: SockAddr)
    | Bind(port: u16)
    | DestAddress(remote: bool)

  datatype Reply = Reply(status: Status, port: u16, addr: SockAddr)

  /** What the latest call returns may depend on all the calls made so far. */
  type Env = seq<Call> -> Reply

  datatype Parser = Parser(state: State, required: nat, log: seq<Call>)

  const START: Parser := Parser(GreetingHeader, 2, [])

  /** The number of bytes each state waits for. */
  ghost predicate WellFormed(p: Parser) {
    match p.state
    case GreetingHeader => p.required == 2
    case GreetingMethods => 1 <= p.required <= 255
    case RequestHeader => p.required == 4
    case RequestAddrV4 => p.required == 6
    case RequestAddrV6 => p.required == 18
    case RequestBind => p.required == 6 || p.required == 18
    case WaitConnect => p.required == 0
    case WaitAccept => p.required == 0
    case Response => p.required == 0
    case Success => p.required <= 1
    case Fail => p.required <= 255
  }

  const GREETING_REPLY: seq<byte> := [5, 0]
  const ERROR_REPLY: seq<byte> := [5, 1, 0, 1, 0, 0, 0, 0, 0, 0]

  /** The final reply, given what the address callback returned. */
  function FinalReply(r: Reply): (m: seq<byte>) {
    if r.status == OK then [5, 0, 0] + AddrPort(r.addr) else ERROR_REPLY
  }

  function BindReply(port: u16): (m: seq<byte>) {
    [5, 0, 0, 1, 0, 0, 0, 0] + Htons(port)
  }

  /** One transition: the new state, the number of bytes taken, and whether to go on. */
  datatype Step = Step(p: Parser, n: nat, go: bool)

  function FailWith(p: Parser, n: nat): (s: Step) {
    Step(p.(state := Fail), n, false)
  }

  /** Sends a reply: the parser with the call recorded, and how the call went. */
  function Send(env: Env, p: Parser, m: seq<byte>): (r: (Parser, Status)) {
    var log := p.log + [Respond(m)];
    (p.(log := log), env(log).status)
  }

  function OnGreetingMethods(env: Env, p: Parser, m: seq<byte>): (s: Step) {
    if 0 !in m then FailWith(p, |m|)
    else
      var (q, status) := Send(env, p, GREETING_REPLY);
      if status != OK then FailWith(q, |m|) else Step(Parser(RequestHeader, 4, q.log), |m|, true)
  }

  function OnRequestHeader(p: Parser, m: seq<byte>): (s: Step)
    requires |m| == 4
  {
    if m[0] != 5 || m[2] != 0 || (m[1] != 1 && m[1] != 2) || (m[3] != ATYP_V4 && m[3] != ATYP_V6) then FailWith(p, 4)
    else
      var v4 := m[3] == ATYP_V4;
      var next := if m[1] == 2 then RequestBind else if v4 then RequestAddrV4 else RequestAddrV6;
      Step(Parser(next, if v4 then 6 else 18, p.log), 4, true)
  }

  function OnConnect(env: Env, p: Parser, dest: SockAddr, n: nat): (s: Step) {
    var log := p.log + [Connect(dest)];
    match env(log).status
    case OK => Step(Parser(Response, 0, log), n, true)
    case InProgress => Step(Parser(WaitConnect, 0, log), n, false)
    case Failed => Step(Parser(Fail, 0, log), n, false)
  }

  function OnBind(env: Env, p: Parser, port: u16, n: nat): (s: Step) {
    var log := p.log + [Bind(port)];
    var r := env(log);
    if r.status == Failed then Step(Parser(Fail, 0, log), n, false)
    else
      var (q, status) := Send(env, Parser(RequestBind, 0, log), BindReply(r.port));
      Step(q.(state := if status == Failed then Fail else WaitAccept), n, false)
  }

  /** Asks for the address to report and sends the final reply. */
  function SendFinal(env: Env, p: Parser, remote: bool): (r: (Parser, Status)) {
    var log := p.log + [DestAddress(remote)];
    Send(env, p.(log := log), FinalReply(env(log)))
  }

  function OnResponse(env: Env, p: Parser): (s: Step) {
    var (q, status) := SendFinal(env, p, false);
    if status != OK then FailWith(q, 0) else Step(Parser(Success, 1, q.log), 0, true)
  }

  /** One transition on the bytes received and not yet taken. */
  function Proceed(env: Env, p: Parser, data: seq<byte>): (s: Step)
    requires WellFormed(p)
    ensures WellFormed(s.p) && s.n <= |data|
    ensures s.go ==> Rank(s.p.state) < Rank(p.state)
  {
    if |data| < p.required then Step(p, 0, false)
    else
      match p.state
      case GreetingHeader =>
        if data[0] != 5 || data[1] == 0 then FailWith(p, 2)
        else Step(Parser(GreetingMethods, data[1] as nat, p.log), 2, true)
      case GreetingMethods => OnGreetingMethods(env, p, data[..p.required])
      case RequestHeader => OnRequestHeader(p, data[..4])
      case RequestAddrV4 => OnConnect(env, p, V4(data[..4], data[4..6]), 6)
      case RequestAddrV6 => OnConnect(env, p, V6(data[..16], data[16..18]), 18)
      case RequestBind => OnBind(env, p, Ntohs(data[p.required - 2..p.required]), p.required)
      case WaitConnect => Step(p, 0, false)
      case WaitAccept => Step(p, 0, false)
      case Response => OnResponse(env, p)
      case Success => Step(p, 0, false)
      case Fail => Step(p.(required := 0), 0, false)
  }

  /** How many transitions can follow. */
  function Rank(s: State): (n: nat) {
    match s
    case GreetingHeader => 6
    case GreetingMethods => 5
    case RequestHeader => 4
    case RequestAddrV4 => 3
    case RequestAddrV6 => 3
    case RequestBind => 3
    case Response => 2
    case WaitConnect => 1
    case WaitAccept => 1
    case Success => 0
    case Fail => 0
  }

  /** As many transitions as the bytes allow: the final state and the bytes not taken. */
  function Run(env: Env, p: Parser, data: seq<byte>): (r: (Parser, seq<byte>))
    requires WellFormed(p)
    ensures WellFormed(r.0)
    decreases Rank(p.state)
  {
    if p.state == Success then (p, data)
    else
      var s := Proceed(env, p, data);
      if s.go then Run(env, s.p, data[s.n..]) else (s.p, data[s.n..])
  }

  /** The connection to the destination is established: the final reply is sent, and the
      handshake counts as done whether or not sending succeeds. */
  function ConnectionSucceed(env: Env, p: Parser): (r: (Parser, bool))
    requires WellFormed(p)
    ensures WellFormed(r.0)
  {
    if p.state == WaitConnect || p.state == WaitAccept then
      var (q, _) := SendFinal(env, p, p.state == WaitAccept);
      (q.(state := Success), true)
    else (p.(state := Fail), false)
  }

  // ---------------------------------------------------------------- properties

  /** The environment of a bridge: connecting is always asynchronous. */
  ghost predicate Asynchronous(env: Env) {
    forall log: seq<Call> :: log != [] && log[|log| - 1].Connect? ==> env(log).status == InProgress
  }

  predicate Consuming(s: State) {
    s in {GreetingHeader, GreetingMethods, RequestHeader, RequestAddrV4, RequestAddrV6, RequestBind}
  }

  /** A state that takes bytes takes exactly the number it waits for, and decides on those
      bytes alone. */
  lemma TakesRequired(env: Env, p: Parser, data: seq<byte>, more: seq<byte>)
    requires WellFormed(p) && |data| >= p.required
    ensures Proceed(env, p, data).n == if Consuming(p.state) then p.required else 0
    ensures Proceed(env, p, data + more) == Proceed(env, p, data)
  {
    assert forall i, j :: 0 <= i <= j <= |data| ==> (data + more)[i..j] == data[i..j];
    assert forall j :: 0 <= j <= |data| ==> (data + more)[..j] == data[..j];
  }

  /** States agree, except for the number of bytes a failed handshake still waits for. */
  ghost predicate Same(p: Parser, q: Parser) {
    p.state == q.state && p.log == q.log && (p.state != Fail ==> p.required == q.required)
  }

  /** Once stopped for another reason than lack of bytes, the parser stays as it is. */
  predicate Stopped(p: Parser) {
    p.state in {WaitConnect, WaitAccept, Success, Fail}
  }

  lemma StoppedStays(env: Env, p: Parser, data: seq<byte>)
    requires WellFormed(p) && Stopped(p)
    ensures Same(Run(env, p, data).0, p) && Run(env, p, data).1 == data
  {
    if p.state != Success {
      assert data[0..] == data;
    }
  }

  /** Where a run ends: it stopped, or the bytes left are fewer than it waits for. */
  lemma {:induction false} RunEnds(env: Env, p: Parser, data: seq<byte>)
    requires WellFormed(p)
    ensures var r := Run(env, p, data); Stopped(r.0) || |r.1| < r.0.required
    ensures exists n :: 0 <= n <= |data| && Run(env, p, data).1 == data[n..]
    decreases Rank(p.state)
  {
    if p.state == Success {
      assert data == data[0..];
    } else {
      var s := Proceed(env, p, data);
      if s.go {
        RunEnds(env, s.p, data[s.n..]);
        var n :| 0 <= n <= |data[s.n..]| && Run(env, s.p, data[s.n..]).1 == data[s.n..][n..];
        assert data[s.n..][n..] == data[s.n + n..];
      } else {
        assert Run(env, p, data).1 == data[s.n..];
      }
    }
  }

  /** The parser halts for lack of bytes, and then changes nothing, or it has stopped. */
  lemma Halts(env: Env, p: Parser, data: seq<byte>)
    requires WellFormed(p)
    ensures |data| < p.required ==> Proceed(env, p, data) == Step(p, 0, false)
    ensures |data| >= p.required && !Proceed(env, p, data).go ==> Stopped(Proceed(env, p, data).p)
  {
  }

  lemma SkipPrefix(a: seq<byte>, b: seq<byte>, n: nat)
    requires n <= |a|
    ensures (a + b)[n..] == a[n..] + b
  {
  }

  /** Running on the first part of the bytes and then on the rest is running on all. */
  lemma {:induction false} RunSplit(env: Env, p: Parser, a: seq<byte>, b: seq<byte>)
    requires WellFormed(p)
    ensures var r := Run(env, p, a);
            var later, whole := Run(env, r.0, r.1 + b), Run(env, p, a + b);
            Same(later.0, whole.0) && later.1 == whole.1
    decreases Rank(p.state)
  {
    hide Proceed;
    var r := Run(env, p, a);
    if Stopped(p) {
      StoppedStays(env, p, a);
      StoppedStays(env, r.0, a + b);
      StoppedStays(env, p, a + b);
    } else if |a| < p.required {
      Halts(env, p, a);
      assert a[0..] == a;
    } else {
      Halts(env, p, a);
      var s := Proceed(env, p, a);
      TakesRequired(env, p, a, b);
      SkipPrefix(a, b, s.n);
      if s.go {
        RunSplit(env, s.p, a[s.n..], b);
      } else {
        StoppedStays(env, s.p, a[s.n..] + b);
      }
    }
  }

  function Flatten(chunks: seq<seq<byte>>): (s: seq<byte>) {
    if chunks == [] then [] else chunks[0] + Flatten(chunks[1..])
  }

  /** Running after each read on what is left and what was read. */
  function Feed(env: Env, p: Parser, rest: seq<byte>, chunks: seq<seq<byte>>): (r: (Parser, seq<byte>))
    requires WellFormed(p)
    decreases |chunks|
  {
    if chunks == [] then Run(env, p, rest)
    else
      var r := Run(env, p, rest + chunks[0]);
      Feed(env, r.0, r.1, chunks[1..])
  }

  /** However the stream is cut into reads, the handshake makes the same calls with the
      same arguments, ends in the same state and leaves the same bytes. */
  lemma {:induction false} ChunkIndependence(env: Env, p: Parser, rest: seq<byte>, chunks: seq<seq<byte>>)
    requires WellFormed(p)
    ensures var cut, whole := Feed(env, p, rest, chunks), Run(env, p, rest + Flatten(chunks));
            Same(cut.0, whole.0) && cut.1 == whole.1
    decreases |chunks|
  {
    if chunks == [] {
      assert rest + [] == rest;
    } else {
      var tail := Flatten(chunks[1..]);
      var r := Run(env, p, rest + chunks[0]);
      ChunkIndependence(env, r.0, r.1, chunks[1..]);
      RunSplit(env, p, rest + chunks[0], tail);
      assert rest + chunks[0] + tail == rest + Flatten(chunks);
    }
  }
}
