/** Client, handshake and forwarder together: a client that says hello and then sends its
    bytes reaches the address it named, with exactly those bytes. */
module Tunnel {
  import opened Blocks
  import opened Protocol
  import opened Socks5
  import opened Handshake
  import B = Bridge
  import P = ProxyBridges
  import Agreement
  import Client

  /** Whichever way the client's hello was cut into reads, once all of it was read the
      bridge is connecting to the client's address, has stopped reading, and holds exactly
      the bytes behind the hello; when the connection is made, it starts to forward. */
  lemma {:induction false} HelloDials(env: Env, cap: nat, states: seq<B.Bridge>, steps: seq<B.Step>, k: nat,
                                      a: SockAddr, tail: seq<byte>, g: B.Spaces)
    requires Asynchronous(env) && env(GREETED).status == OK && IsInet(a)
    requires B.IsRun(env, cap, states, steps) && k < |states|
    requires var b := states[k];
             !b.dialed && !b.aborted && b.up.input == Client.Hello(a) + tail
    ensures var b := states[k];
            && b.parser == Parser(WaitConnect, 0, GREETED + [Connect(a)]) && b.up.buf == tail && !b.greeting
            && B.Enabled(b, B.Dialed(false))
    ensures Socks5.WellFormed(states[k].parser) && B.Next(env, states[k], B.Dialed(false), g).forwarding
  {
    hide Run, B.IsRun, Asynchronous, Protocol.WellFormed, Client.Hello, B.Next, B.Inv;
    B.Reachable(env, cap, states, steps, k);
    var b := states[k];
    Agreement.HelloUnderstood(env, a, tail);
    HelloInStep(env, cap, b, a, tail);
    ConnectedForwards(env, b, g);
  }

  lemma HelloInStep(env: Env, cap: nat, b: B.Bridge, a: SockAddr, tail: seq<byte>)
    requires B.Inv(env, cap, b) && !b.dialed && !b.aborted
    requires Run(env, START, b.up.input) == (Parser(WaitConnect, 0, GREETED + [Connect(a)]), tail)
    ensures b.parser == Parser(WaitConnect, 0, GREETED + [Connect(a)]) && b.up.buf == tail && !b.greeting
    ensures B.Dials(b.parser.log)
  {
    hide Run, B.Sound, B.Settled, B.Quiet;
    assert (GREETED + [Connect(a)])[1] == Connect(a);
    NotForwarding(cap, b);
  }

  lemma NotForwarding(cap: nat, b: B.Bridge)
    requires B.Sound(cap, b.greeting, b.up) && b.up.output == []
    ensures b.up.buf == b.up.input[b.up.skipped..]
  {
  }

  lemma ConnectedForwards(env: Env, b: B.Bridge, g: B.Spaces)
    requires Socks5.WellFormed(b.parser) && b.parser.state == WaitConnect
    ensures B.Next(env, b, B.Dialed(false), g).forwarding
  {
  }

  /** While forwarding for such a client, what was written to the destination followed by
      what is buffered are exactly the bytes behind the hello; when nothing is pending any
      more and no write failed, the destination has all of them and then the end. */
  lemma {:induction false} TunnelDelivered(env: Env, cap: nat, states: seq<B.Bridge>, steps: seq<B.Step>, k: nat,
                                           a: SockAddr, tail: seq<byte>)
    requires Asynchronous(env) && env(GREETED).status == OK && IsInet(a)
    requires B.IsRun(env, cap, states, steps) && k < |states|
    requires var b := states[k]; b.forwarding && b.up.input == Client.Hello(a) + tail
    ensures var b := states[k];
            && b.up.output + b.up.buf == tail
            && (!b.up.reading && !b.up.writing && !b.up.broken ==> b.up.output == tail && b.up.shutdowns == 1)
  {
    hide Run, B.IsRun, Asynchronous, Protocol.WellFormed, Client.Hello;
    Agreement.HelloUnderstood(env, a, tail);
    B.StreamIntegrity(env, cap, states, steps, k);
    B.NeverStalls(env, cap, states, steps, k);
  }

  /** What such a client hears: nothing from the destination before the final reply; while
      forwarding, the two replies and then exactly what was written of the destination's
      bytes. It takes the replies for success exactly when the server could tell its address
      and could write the final reply, and then leaves exactly those bytes. */
  lemma {:induction false} ClientHears(env: Env, cut: Agreement.Cut, cap: nat, states: seq<B.Bridge>,
                                       steps: seq<B.Step>, k: nat, a: SockAddr, tail: seq<byte>)
    requires Asynchronous(env) && env(GREETED).status == OK && IsInet(a) && IsInet(env(Agreement.Asked(a)).addr)
    requires B.IsRun(env, cap, states, steps) && k < |states|
    ensures !states[k].forwarding ==> states[k].down.output == []
    ensures states[k].forwarding && states[k].up.input == Client.Hello(a) + tail ==>
              var b := states[k];
              var stream := Agreement.Arrives(env, cut, b.parser.log, b.down.output);
              var (result, taken) := Client.Verdict(stream);
              && b.parser.log == Agreement.Answered(env, a)
              && (result == 0 <==> env(Agreement.Asked(a)).status == OK && env(b.parser.log).status == OK)
              && (result == 0 ==> taken <= |stream| && stream[taken..] == b.down.output)
  {
    hide Run, B.IsRun, Asynchronous, Protocol.WellFormed, Client.Hello, Client.Verdict, Agreement.Arrives, FinalReply;
    B.ReplyFirst(env, cap, states, steps, k);
    var b := states[k];
    if b.forwarding && b.up.input == Client.Hello(a) + tail {
      Agreement.HelloUnderstood(env, a, tail);
      Agreement.ReplyHeard(env, cut, a, b.down.output);
    }
  }

  /** While part of the hello is missing the handshake waits for it. */
  lemma HelloWaits(env: Env, a: SockAddr, j: nat)
    requires Asynchronous(env) && env(GREETED).status == OK && IsInet(a) && j < |Client.Hello(a)|
    ensures var r := Run(env, START, Client.Hello(a)[..j]); !Stopped(r.0) && |r.1| < r.0.required
  {
    hide Run, Asynchronous, Client.Hello, Protocol.WellFormed;
    var hello := Client.Hello(a);
    var r := Run(env, START, hello[..j]);
    assert hello[..j] + hello[j..] == hello && hello + [] == hello;
    Agreement.HelloUnderstood(env, a, []);
    RunSplit(env, START, hello[..j], hello[j..]);
    RunEnds(env, START, hello[..j]);
    if Stopped(r.0) {
      StoppedStays(env, r.0, r.1 + hello[j..]);
    }
  }

  /** After a read for the handshake the bridge reads on exactly if bytes are missing. */
  lemma ReadsOn(env: Env, b: B.Bridge, data: seq<byte>, g: B.Spaces)
    requires Socks5.WellFormed(b.parser) && b.up.reserved && 0 < b.up.granted && |data| <= b.up.granted
    ensures var b' := B.Next(env, b, B.HandshakeRead(data, false), g);
            && b'.up.input == b.up.input + data && b'.dialed == b.dialed && !b'.aborted
            && (b'.greeting <==> |b'.up.buf| < b'.parser.required)
  {
    hide Run;
  }

  lemma NotYet(env: Env, cap: nat, b: B.Bridge, a: SockAddr, j: nat)
    requires B.Inv(env, cap, b) && !b.dialed && !b.aborted && j < |Client.Hello(a)|
             && b.up.input == Client.Hello(a)[..j]
    requires Asynchronous(env) && env(GREETED).status == OK && IsInet(a)
    ensures |b.up.buf| < b.parser.required
  {
    hide Run, Asynchronous, Client.Hello, Protocol.WellFormed, B.Settled, B.Quiet, B.Dials;
    HelloWaits(env, a, j);
    NotForwarding(cap, b);
  }

  lemma Granted(env: Env, cap: nat, b: B.Bridge)
    requires B.Inv(env, cap, b) && b.greeting
    ensures Socks5.WellFormed(b.parser) && b.up.reserved && 0 < b.up.granted
  {
  }

  /** The first j steps read the client's hello byte by byte. */
  ghost predicate ByteByByte(a: SockAddr, steps: seq<B.Step>, j: nat) {
    && j <= |steps| && j <= |Client.Hello(a)|
    && forall k :: 0 <= k < j ==> steps[k].e == B.HandshakeRead([Client.Hello(a)[k]], false)
  }

  /** Whatever is reserved meanwhile, the bridge then reads on until it has all of it. */
  lemma {:induction false} HelloReading(env: Env, cap: nat, a: SockAddr,
                                        states: seq<B.Bridge>, steps: seq<B.Step>, j: nat)
    requires Asynchronous(env) && env(GREETED).status == OK && IsInet(a)
    requires B.IsRun(env, cap, states, steps) && ByteByByte(a, steps, j)
    ensures var b := states[j];
            && !b.dialed && !b.aborted && b.up.input == Client.Hello(a)[..j]
            && (j < |Client.Hello(a)| ==> b.greeting && B.Enabled(b, B.HandshakeRead([Client.Hello(a)[j]], false)))
  {
    hide Run, Asynchronous, Client.Hello, Protocol.WellFormed, B.Next, B.Inv;
    var hello := Client.Hello(a);
    var b := states[j];
    B.Reachable(env, cap, states, steps, j);
    if j > 0 {
      HelloReading(env, cap, a, states, steps, j - 1);
      B.Reachable(env, cap, states, steps, j - 1);
      var s := steps[j - 1];
      assert B.Leads(env, cap, states[j - 1], s, b);
      Granted(env, cap, states[j - 1]);
      ReadsOn(env, states[j - 1], [hello[j - 1]], s.g);
      assert hello[..j - 1] + [hello[j - 1]] == hello[..j];
      if j < |hello| {
        NotYet(env, cap, b, a, j);
      }
    }
    if j < |hello| {
      Granted(env, cap, b);
    }
  }

  /** There is a run that reads the client's hello byte by byte. */
  lemma {:induction false} HelloRead(env: Env, cap: nat, a: SockAddr, j: nat)
    returns (states: seq<B.Bridge>, steps: seq<B.Step>)
    requires Asynchronous(env) && env(GREETED).status == OK && IsInet(a) && cap > 0 && j <= |Client.Hello(a)|
    ensures B.IsRun(env, cap, states, steps) && |steps| == j && ByteByByte(a, steps, j)
  {
    hide Run, Asynchronous, Client.Hello, Protocol.WellFormed, B.Next, B.Inv;
    if j == 0 {
      states, steps := [B.Start(1)], [];
      assert B.Starts(cap, states[0]);
    } else {
      states, steps := HelloRead(env, cap, a, j - 1);
      var b, s := states[j - 1], B.Step(B.HandshakeRead([Client.Hello(a)[j - 1]], false), B.Spaces(1, 1));
      HelloReading(env, cap, a, states, steps, j - 1);
      B.Reachable(env, cap, states, steps, j - 1);
      Granted(env, cap, b);
      B.RunMore(env, cap, states, steps, s, B.Next(env, b, s.e, s.g));
      states, steps := states + [B.Next(env, b, s.e, s.g)], steps + [s];
    }
  }

  /** Such a run exists for every address and every size of the blocks: the hello, and then
      the connection. */
  lemma {:induction false} ForwardingStarts(env: Env, cap: nat, a: SockAddr)
    returns (states: seq<B.Bridge>, steps: seq<B.Step>)
    requires Asynchronous(env) && env(GREETED).status == OK && IsInet(a) && cap > 0
    ensures B.IsRun(env, cap, states, steps)
    ensures states[|steps|].forwarding && states[|steps|].up.input == Client.Hello(a)
  {
    hide Run, Asynchronous, Client.Hello, Protocol.WellFormed, B.Next;
    var hello := Client.Hello(a);
    states, steps := HelloRead(env, cap, a, |hello|);
    HelloReading(env, cap, a, states, steps, |hello|);
    assert hello[..|hello|] == hello && hello + [] == hello;
    var b, s := states[|steps|], B.Step(B.Dialed(false), B.Spaces(B.READ_SIZE, B.READ_SIZE));
    HelloDials(env, cap, states, steps, |steps|, a, [], s.g);
    ConnectedKeepsInput(env, b, s.g);
    B.RunMore(env, cap, states, steps, s, B.Next(env, b, s.e, s.g));
    states, steps := states + [B.Next(env, b, s.e, s.g)], steps + [s];
  }

  lemma ConnectedKeepsInput(env: Env, b: B.Bridge, g: B.Spaces)
    requires Socks5.WellFormed(b.parser)
    ensures B.Next(env, b, B.Dialed(false), g).up.input == b.up.input
  {
    hide ConnectionSucceed, B.Schedule;
    B.ScheduleInput(b.up, g.up);
  }

  /** An environment that lets the client's hello come byte by byte, and then the connection. */
  function HelloFirst(a: SockAddr): (choose: P.Choice) {
    (space: nat, sizes: seq<B.Spaces>) =>
      if |sizes| < |Client.Hello(a)| then B.HandshakeRead([Client.Hello(a)[|sizes|]], false) else B.Dialed(false)
  }

  lemma HelloChosen(a: SockAddr, space: nat, steps: seq<B.Step>, j: nat)
    requires P.Chosen(HelloFirst(a), space, steps) && j <= |steps| && j <= |Client.Hello(a)|
    ensures ByteByByte(a, steps, j)
    ensures j < |steps| && j == |Client.Hello(a)| ==> steps[j].e == B.Dialed(false)
  {
    hide Client.Hello;
    forall k | 0 <= k < j
      ensures steps[k].e == B.HandshakeRead([Client.Hello(a)[k]], false)
    {
      assert |P.Sizes(steps[..k])| == k;
    }
    assert |P.Sizes(steps[..j])| == j;
  }

  /** The handlers can be called that way whatever they reserve, and the object is then
      forwarding. */
  lemma {:induction false} HelloPlayable(env: Env, cap: nat, a: SockAddr)
    requires Asynchronous(env) && env(GREETED).status == OK && IsInet(a)
    ensures P.Playable(env, cap, HelloFirst(a), |Client.Hello(a)| + 1)
    ensures forall states: seq<B.Bridge>, steps: seq<B.Step> ::
              && B.IsRun(env, cap, states, steps) && |steps| == |Client.Hello(a)| + 1
              && P.Chosen(HelloFirst(a), states[0].up.granted, steps) ==>
                states[|steps|].forwarding && states[|steps|].up.input == Client.Hello(a)
  {
    hide Run, Asynchronous, Client.Hello, Protocol.WellFormed, B.Next, B.Enabled, P.Chosen, B.Leads, B.Starts;
    var hello := Client.Hello(a);
    forall states: seq<B.Bridge>, steps: seq<B.Step> |
      B.IsRun(env, cap, states, steps) && |steps| <= |hello| && P.Chosen(HelloFirst(a), states[0].up.granted, steps)
      ensures B.Enabled(states[|steps|], HelloFirst(a)(states[0].up.granted, P.Sizes(steps)))
    {
      HelloChosen(a, states[0].up.granted, steps, |steps|);
      HelloReading(env, cap, a, states, steps, |steps|);
      if |steps| == |hello| {
        assert hello[..|hello|] == hello && hello + [] == hello;
        HelloDials(env, cap, states, steps, |steps|, a, [], B.Spaces(0, 0));
      }
    }
    forall states: seq<B.Bridge>, steps: seq<B.Step> |
      && B.IsRun(env, cap, states, steps) && |steps| == |hello| + 1
      && P.Chosen(HelloFirst(a), states[0].up.granted, steps)
      ensures states[|steps|].forwarding && states[|steps|].up.input == hello
    {
      HelloForwarded(env, cap, a, states, steps);
    }
  }

  lemma HelloForwarded(env: Env, cap: nat, a: SockAddr, states: seq<B.Bridge>, steps: seq<B.Step>)
    requires Asynchronous(env) && env(GREETED).status == OK && IsInet(a)
    requires B.IsRun(env, cap, states, steps) && |steps| == |Client.Hello(a)| + 1
    requires P.Chosen(HelloFirst(a), states[0].up.granted, steps)
    ensures states[|steps|].forwarding && states[|steps|].up.input == Client.Hello(a)
  {
    hide Run, Asynchronous, Client.Hello, Protocol.WellFormed, B.Next, P.Chosen;
    var hello := Client.Hello(a);
    var j := |hello|;
    HelloChosen(a, states[0].up.granted, steps, j);
    HelloReading(env, cap, a, states, steps, j);
    assert hello[..j] == hello && hello + [] == hello;
    HelloDials(env, cap, states, steps, j, a, [], steps[j].g);
    assert B.Leads(env, cap, states[j], steps[j], states[j + 1]);
    ConnectedKeepsInput(env, states[j], steps[j].g);
  }
}
