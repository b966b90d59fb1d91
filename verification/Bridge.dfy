/** The proxy bridge as a transition system: a handshake phase, then two independent
    directions of forwarding. The environment decides which pending operation completes,
    with how many bytes and whether with an error. */
module Bridge {
  import opened Blocks
  import S = Socks5

  const MAX_BUFFER: nat := 32 * 1024
  const READ_SIZE: nat := 8 * 1024

  /** One direction: from a source socket through a buffer to a sink socket. */
  datatype Direction = Direction(
    reading: bool,      // a read of the source is pending
    readable: bool,     // the source has not ended
    writing: bool,      // a write to the sink is pending
    writable: bool,     // the sink still takes bytes
    buf: seq<byte>,     // the bytes in the buffer
    reserved: bool,     // the buffer has an outstanding reservation
    granted: nat,       // the size of that reservation
    peeked: bool,       // the buffer has an outstanding peek
    offered: nat,       // the size of that peek
    input: seq<byte>,   // history: all bytes read from the source
    skipped: nat,       // history: how many of them the handshake took
    output: seq<byte>,  // history: all bytes written to the sink
    shutdowns: nat,     // history: how often sending to the sink was shut down
    broken: bool,       // history: a write to the sink failed
    crashed: bool)      // history: an assertion of the buffer failed

  const IDLE: Direction := Direction(false, true, false, true, [], false, 0, false, 0, [], 0, [], 0, false, false)

  /** The buffer operations, with their assertions. */
  function Reserve(d: Direction, space: nat): (d': Direction) {
    if d.reserved then d.(crashed := true) else d.(reserved := true, granted := space)
  }

  function Commit(d: Direction, data: seq<byte>): (d': Direction) {
    if !d.reserved || d.granted == 0 || |data| > d.granted then d.(crashed := true)
    else d.(reserved := false, granted := 0, buf := d.buf + data, input := d.input + data)
  }

  function Peek(d: Direction): (d': Direction) {
    if d.peeked then d.(crashed := true) else d.(peeked := true, offered := |d.buf|)
  }

  function Drain(d: Direction, n: nat): (d': Direction) {
    if !d.peeked || n > |d.buf| then d.(crashed := true)
    else d.(peeked := false, offered := 0, buf := d.buf[n..], output := d.output + d.buf[..n])
  }

  function ScheduleRead(d: Direction, space: nat): (d': Direction) {
    if !d.reading && d.readable && d.writable && |d.buf| < MAX_BUFFER
    then Reserve(d, space).(reading := true) else d
  }

  function ScheduleWrite(d: Direction): (d': Direction) {
    if !d.writing && d.writable && |d.buf| > 0 then Peek(d).(writing := true) else d
  }

  /** Schedules the operations that the flags and the buffer call for; `space` is the size
      of the reservation if a read is scheduled. */
  function Schedule(d: Direction, space: nat): (d': Direction) {
    ScheduleWrite(ScheduleRead(d, space))
  }

  /** It does not matter whether the read or the write is scheduled first. */
  lemma ScheduleAnyOrder(d: Direction, space: nat)
    ensures ScheduleRead(ScheduleWrite(d), space) == Schedule(d, space)
  {
    hide ScheduleRead, ScheduleWrite, Reserve, Peek;
    ReadPart(d, space);
    WritePart(d);
    ReadPart(ScheduleWrite(d), space);
    WritePart(ScheduleRead(d, space));
  }

  lemma ReadPart(d: Direction, space: nat)
    ensures ScheduleRead(d, space) ==
            if d.reading || !d.readable || !d.writable || |d.buf| >= MAX_BUFFER then d
            else if d.reserved then d.(crashed := true, reading := true)
            else d.(reserved := true, granted := space, reading := true)
  {
  }

  lemma WritePart(d: Direction)
    ensures ScheduleWrite(d) ==
            if d.writing || !d.writable || |d.buf| == 0 then d
            else if d.peeked then d.(crashed := true, writing := true)
            else d.(peeked := true, offered := |d.buf|, writing := true)
  {
  }

  /** A read completed. */
  function ReadDone(d: Direction, data: seq<byte>, failed: bool): (d': Direction) {
    var d1 := Commit(d.(reading := false), data);
    if !failed then d1
    else d1.(readable := false, shutdowns := if d1.buf == [] then d1.shutdowns + 1 else d1.shutdowns)
  }

  /** A write completed. */
  function WriteDone(d: Direction, n: nat, failed: bool): (d': Direction) {
    WriteEnd(Drain(d.(writing := false), n), failed)
  }

  /** Notes a failed write; with the source ended and nothing left to write, shuts sending
      to the sink down. */
  function WriteEnd(d: Direction, failed: bool): (d': Direction) {
    var d1 := if failed then d.(writable := false, broken := true) else d;
    if !d1.readable && d1.buf == [] then d1.(writable := false, shutdowns := d1.shutdowns + 1) else d1
  }

  function WriteEnded(d: Direction, failed: bool, over: bool): (d': Direction) {
    d.(writable := d.writable && !failed && !over, broken := d.broken || failed,
       shutdowns := if over then d.shutdowns + 1 else d.shutdowns)
  }

  lemma WriteEndAtOnce(d: Direction, failed: bool)
    ensures WriteEnd(d, failed) == WriteEnded(d, failed, !d.readable && |d.buf| == 0)
  {
  }

  datatype Bridge = Bridge(
    parser: S.Parser,
    greeting: bool,     // a read for the handshake is pending
    aborted: bool,      // a read for the handshake failed
    dialed: bool,       // the connection to the destination was made or refused
    forwarding: bool,   // history: forwarding has begun
    up: Direction,
    down: Direction)

  /** The handshake has asked for a connection: to the destination, or from a peer. */
  predicate Dials(log: seq<S.Call>) {
    exists i :: 0 <= i < |log| && (log[i].Connect? || log[i].Bind?)
  }

  datatype Event =
    | HandshakeRead(data: seq<byte>, failed: bool)
    | Dialed(failed: bool)
    | ClientRead(data: seq<byte>, failed: bool)
    | ClientWritten(n: nat, failed: bool)
    | DestRead(data: seq<byte>, failed: bool)
    | DestWritten(n: nat, failed: bool)

  /** The completions that the pending operations allow: a read fills at most the space it
      was given, a write takes at most the bytes it was offered. */
  predicate Enabled(b: Bridge, e: Event) {
    match e
    case HandshakeRead(data, _) => b.greeting && |data| <= b.up.granted
    case Dialed(_) => !b.dialed && Dials(b.parser.log)
    case ClientRead(data, _) => b.up.reading && |data| <= b.up.granted
    case ClientWritten(n, _) => b.down.writing && n <= b.down.offered
    case DestRead(data, _) => b.down.reading && |data| <= b.down.granted
    case DestWritten(n, _) => b.up.writing && n <= b.up.offered
  }

  /** The sizes of the reservations made in a step, one per direction. */
  datatype Spaces = Spaces(up: nat, down: nat)

  /** A reservation may exceed what was asked for by less than a block. */
  predicate Sized(cap: nat, e: Event, g: Spaces) {
    if e.HandshakeRead? then 1 <= g.up < 1 + cap
    else 8 * 1024 <= g.up < 8 * 1024 + cap && 8 * 1024 <= g.down < 8 * 1024 + cap
  }

  function Forward(b: Bridge, g: Spaces): (b': Bridge) {
    b.(up := Schedule(b.up, g.up), down := Schedule(b.down, g.down))
  }

  /** The handshake has taken bytes, and `rest` is left. */
  function Leave(d: Direction, rest: seq<byte>): (d': Direction) {
    var taken := if |rest| <= |d.buf| then |d.buf| - |rest| else 0;
    d.(buf := rest, skipped := d.skipped + taken, crashed := d.crashed || d.peeked)
  }

  /** Lets the handshake take what it can of the bytes read, and reads more if needed. */
  function Advance(env: S.Env, b: Bridge, space: nat): (b': Bridge)
    requires S.WellFormed(b.parser)
  {
    var (parser, rest) := S.Run(env, b.parser, b.up.buf);
    var up := Leave(b.up, rest);
    var more := |rest| < parser.required;
    b.(parser := parser, greeting := more, up := if more then Reserve(up, space) else up)
  }

  /** The same in two steps: the handshake takes its bytes, then a read is scheduled. */
  lemma AdvanceParts(env: S.Env, b: Bridge, up: Direction)
    requires S.WellFormed(b.parser) && !b.up.peeked && !b.greeting
    requires var rest := S.Run(env, b.parser, b.up.buf).1;
             |rest| <= |b.up.buf| && up == b.up.(buf := rest, skipped := b.up.skipped + (|b.up.buf| - |rest|))
    ensures forall space: nat ::
              var (parser, rest) := S.Run(env, b.parser, b.up.buf);
              Advance(env, b, space) == if |rest| < parser.required
                                        then b.(parser := parser, greeting := true, up := Reserve(up, space))
                                        else b.(parser := parser, up := up)
  {
    hide S.Run, Reserve;
  }

  function OnHandshakeRead(env: S.Env, b: Bridge, data: seq<byte>, failed: bool, space: nat): (b': Bridge)
    requires S.WellFormed(b.parser)
  {
    var b1 := b.(greeting := false, aborted := failed, up := Commit(b.up, data));
    if failed then b1 else Advance(env, b1, space)
  }

  function OnDialed(env: S.Env, b: Bridge, failed: bool, g: Spaces): (b': Bridge)
    requires S.WellFormed(b.parser)
  {
    if failed then b.(dialed := true)
    else
      var (parser, ok) := S.ConnectionSucceed(env, b.parser);
      var b1 := b.(dialed := true, parser := parser, forwarding := ok);
      if ok then Forward(b1, g) else b1
  }

  function Next(env: S.Env, b: Bridge, e: Event, g: Spaces): (b': Bridge)
    requires S.WellFormed(b.parser)
    ensures S.WellFormed(b'.parser)
  {
    match e
    case HandshakeRead(data, failed) => OnHandshakeRead(env, b, data, failed, g.up)
    case Dialed(failed) => OnDialed(env, b, failed, g)
    case ClientRead(data, failed) => Forward(b.(up := ReadDone(b.up, data, failed)), g)
    case ClientWritten(n, failed) => Forward(b.(down := WriteDone(b.down, n, failed)), g)
    case DestRead(data, failed) => Forward(b.(down := ReadDone(b.down, data, failed)), g)
    case DestWritten(n, failed) => Forward(b.(up := WriteDone(b.up, n, failed)), g)
  }

  /** A bridge that has just started the handshake. */
  function Start(space: nat): (b: Bridge)
    ensures S.WellFormed(b.parser)
  {
    Bridge(S.START, true, false, false, false, Reserve(IDLE, space), IDLE)
  }

  /** A step of a run: what completed, and the reservations made in response. */
  datatype Step = Step(e: Event, g: Spaces)

  /** A step that the environment can make. */
  ghost predicate Leads(env: S.Env, cap: nat, b: Bridge, s: Step, b': Bridge) {
    S.WellFormed(b.parser) && Enabled(b, s.e) && Sized(cap, s.e, s.g) && b' == Next(env, b, s.e, s.g)
  }

  ghost predicate Starts(cap: nat, b: Bridge) {
    exists space :: 1 <= space < 1 + cap && b == Start(space)
  }

  /** A run: the states it passes, from the start of the handshake on, and the steps between. */
  ghost predicate IsRun(env: S.Env, cap: nat, states: seq<Bridge>, steps: seq<Step>) {
    && |states| == |steps| + 1 && Starts(cap, states[0])
    && forall k :: 0 <= k < |steps| ==> Leads(env, cap, states[k], steps[k], states[k + 1])
  }

  /** A run with one more step. */
  lemma RunMore(env: S.Env, cap: nat, states: seq<Bridge>, steps: seq<Step>, s: Step, b: Bridge)
    requires IsRun(env, cap, states, steps) && Leads(env, cap, states[|steps|], s, b)
    ensures IsRun(env, cap, states + [b], steps + [s])
  {
    hide Leads, Starts;
    var more, next := states + [b], steps + [s];
    forall k | 0 <= k < |next|
      ensures Leads(env, cap, more[k], next[k], more[k + 1])
    {
      if k < |steps| {
        assert next[k] == steps[k] && more[k] == states[k] && more[k + 1] == states[k + 1];
      }
    }
  }

  // ---------------------------------------------------------------- one direction

  /** What holds of a direction at all times; `cap` is the capacity of a block, and
      `greeting` says whether a read for the handshake is pending. */
  ghost predicate Sound(cap: nat, greeting: bool, d: Direction) {
    && !d.crashed
    && d.reserved == (d.reading || greeting) && d.peeked == d.writing
    && (d.reading ==> d.readable)
    && (d.writing ==> d.writable && 0 < d.offered <= |d.buf|)
    && d.shutdowns == (if !d.readable && d.buf == [] then 1 else 0)
    && (!d.writable ==> d.broken || d.shutdowns == 1)
    && d.skipped <= |d.input| && d.input[d.skipped..] == d.output + d.buf
    && |d.buf| < MAX_BUFFER + READ_SIZE + cap
    && (d.reserved ==> 0 < d.granted && |d.buf| + d.granted < MAX_BUFFER + READ_SIZE + cap)
  }

  /** Nothing is left to schedule. */
  ghost predicate Settled(d: Direction) {
    && !(!d.reading && d.readable && d.writable && |d.buf| < MAX_BUFFER)
    && !(!d.writing && d.writable && |d.buf| > 0)
  }

  lemma ScheduleSound(cap: nat, d: Direction, space: nat)
    requires Sound(cap, false, d) && READ_SIZE <= space < READ_SIZE + cap
    ensures Sound(cap, false, Schedule(d, space)) && Settled(Schedule(d, space))
    ensures Settled(d) ==> Schedule(d, space) == d
    ensures Schedule(d, space).input == d.input && Schedule(d, space).skipped == d.skipped
  {
  }

  lemma ReadSound(cap: nat, d: Direction, data: seq<byte>, failed: bool)
    requires Sound(cap, false, d) && d.reading && |data| <= d.granted
    ensures Sound(cap, false, ReadDone(d, data, failed))
    ensures ReadDone(d, data, failed).input == d.input + data && ReadDone(d, data, failed).skipped == d.skipped
  {
    assert (d.input + data)[d.skipped..] == d.input[d.skipped..] + data;
    assert d.output + d.buf + data == d.output + (d.buf + data);
  }

  lemma WriteSound(cap: nat, d: Direction, n: nat, failed: bool)
    requires Sound(cap, false, d) && d.writing && n <= d.offered
    ensures Sound(cap, false, WriteDone(d, n, failed))
    ensures WriteDone(d, n, failed).input == d.input && WriteDone(d, n, failed).skipped == d.skipped
  {
    assert d.buf == d.buf[..n] + d.buf[n..];
    assert d.output + d.buf[..n] + d.buf[n..] == d.output + (d.buf[..n] + d.buf[n..]);
  }

  /** A direction without a pending operation either failed to write, or has delivered all
      that was read after the handshake, seen the end of the source, and passed it on. */
  lemma NoStall(cap: nat, greeting: bool, d: Direction)
    requires Sound(cap, greeting, d) && Settled(d) && !d.reading && !d.writing
    ensures d.broken || (!d.readable && d.output == d.input[d.skipped..] && d.shutdowns == 1)
  {
    assert d.buf == [] ==> d.output + d.buf == d.output;
  }

  // ---------------------------------------------------------------- the handshake phase

  /** Once a connection was asked for, the parser waits for it or has failed, and in either
      case waits for no more bytes. */
  ghost predicate Quiet(p: S.Parser) {
    && S.WellFormed(p) && p.state != S.Response && p.state != S.Success
    && (Dials(p.log) ==> S.Stopped(p) && p.required == 0)
  }

  lemma DialsMore(log: seq<S.Call>, c: S.Call)
    ensures Dials(log + [c]) <==> Dials(log) || c.Connect? || c.Bind?
  {
    if Dials(log) {
      var i :| 0 <= i < |log| && (log[i].Connect? || log[i].Bind?);
      assert (log + [c])[i] == log[i];
    }
    assert (log + [c])[|log|] == c;
    forall i | 0 <= i < |log|
      ensures (log + [c])[i] == log[i]
    {
    }
  }

  lemma ConnectQuiet(env: S.Env, p: S.Parser, data: seq<byte>)
    requires S.Asynchronous(env) && Quiet(p) && |data| >= p.required
    ensures p.state in {S.RequestHeader, S.RequestAddrV4, S.RequestAddrV6, S.RequestBind} ==>
            Quiet(S.Proceed(env, p, data).p)
  {
    hide Dials, S.BindReply;
  }

  lemma ProceedQuiet(env: S.Env, p: S.Parser, data: seq<byte>)
    requires S.Asynchronous(env) && Quiet(p)
    ensures Quiet(S.Proceed(env, p, data).p)
  {
    hide Dials, S.OnBind, S.OnConnect, S.OnRequestHeader;
    if |data| >= p.required {
      ConnectQuiet(env, p, data);
    }
    if p.state == S.GreetingMethods {
      DialsMore(p.log, S.Respond(S.GREETING_REPLY));
    }
  }

  lemma {:induction false} RunQuiet(env: S.Env, p: S.Parser, data: seq<byte>)
    requires S.Asynchronous(env) && Quiet(p)
    ensures Quiet(S.Run(env, p, data).0) && |S.Run(env, p, data).1| <= |data|
    ensures S.Run(env, p, data).1 == data[|data| - |S.Run(env, p, data).1|..]
    decreases S.Rank(p.state)
  {
    ProceedQuiet(env, p, data);
    var s := S.Proceed(env, p, data);
    if s.go {
      RunQuiet(env, s.p, data[s.n..]);
    }
  }

  /** The handshake as far as the bytes read from the client determine it, whichever way
      they were cut into reads. */
  ghost function Parsed(env: S.Env, b: Bridge): (r: (S.Parser, seq<byte>)) {
    S.Run(env, S.START, b.up.input)
  }

  /** The parser is where the bytes read so far lead, and has left what it would have left
      of them in one piece. Bytes that come after a stopped handshake are left as well. */
  ghost predicate InStep(env: S.Env, b: Bridge) {
    && b.up.skipped <= |b.up.input| && Parsed(env, b).1 == b.up.input[b.up.skipped..]
    && (if b.dialed then S.Stopped(Parsed(env, b).0) else S.Same(Parsed(env, b).0, b.parser))
  }

  /** What holds in every reachable state. */
  ghost predicate Inv(env: S.Env, cap: nat, b: Bridge) {
    && S.WellFormed(b.parser)
    && Sound(cap, b.greeting, b.up) && Sound(cap, false, b.down) && b.down.skipped == 0
    && (!b.aborted ==> InStep(env, b))
    && (!b.dialed ==> Quiet(b.parser))
    && (b.dialed ==> !b.greeting)
    && (b.greeting ==> !b.aborted && !Dials(b.parser.log))
    && (Dials(b.parser.log) ==> !b.aborted)
    && (if b.forwarding then b.dialed && !b.aborted && Settled(b.up) && Settled(b.down) && b.parser.state == S.Success
        else b.up.output == [] && !b.up.reading && !b.up.writing && b.up.readable && b.up.writable && b.down == IDLE)
  }

  lemma StartInv(env: S.Env, cap: nat, space: nat)
    requires 1 <= space < 1 + cap
    ensures Inv(env, cap, Start(space))
  {
  }

  lemma DropMore<T>(s: seq<T>, k: nat, t: seq<T>, n: nat)
    requires k <= |s| && n <= |s[k..] + t|
    ensures (s + t)[k..] == s[k..] + t && (s + t)[k + n..] == (s[k..] + t)[n..]
  {
  }

  lemma {:induction false} HandshakeReadInv(env: S.Env, cap: nat, b: Bridge, data: seq<byte>, failed: bool, space: nat)
    requires S.Asynchronous(env) && Inv(env, cap, b) && b.greeting && |data| <= b.up.granted && 1 <= space < 1 + cap
    ensures Inv(env, cap, OnHandshakeRead(env, b, data, failed, space))
  {
    hide S.Run, Dials, InStep, S.Asynchronous, Advance;
    DropMore(b.up.input, b.up.skipped, data, 0);
    if !failed {
      HandshakeInStep(env, b, data, space);
      AdvanceSound(env, cap, b.(greeting := false, up := Commit(b.up, data)), space);
    }
  }

  /** Letting the handshake take bytes keeps the client's direction sound. */
  lemma AdvanceSound(env: S.Env, cap: nat, b: Bridge, space: nat)
    requires S.Asynchronous(env) && Quiet(b.parser) && Sound(cap, false, b.up) && 1 <= space < 1 + cap
    requires b.up.output == [] && !b.up.reading && !b.up.writing && b.up.readable && b.up.writable && !b.forwarding
    requires !b.dialed && !b.aborted
    ensures var b' := Advance(env, b, space);
            && Quiet(b'.parser) && Sound(cap, b'.greeting, b'.up)
            && b' == b.(parser := b'.parser, greeting := b'.greeting, up := b'.up)
            && b'.up.output == [] && !b'.up.reading && !b'.up.writing && b'.up.readable && b'.up.writable
            && (b'.greeting ==> !Dials(b'.parser.log))
  {
    hide S.Run, Dials, S.Asynchronous;
    RunQuiet(env, b.parser, b.up.buf);
    var rest := S.Run(env, b.parser, b.up.buf).1;
    DropMore(b.up.input, b.up.skipped, [], |b.up.buf| - |rest|);
    assert b.up.input[b.up.skipped..] + [] == b.up.input[b.up.skipped..] && b.up.input + [] == b.up.input;
  }

  /** A read keeps the parser in step with the bytes read. */
  lemma {:induction false} HandshakeInStep(env: S.Env, b: Bridge, data: seq<byte>, space: nat)
    requires S.Asynchronous(env) && Quiet(b.parser) && InStep(env, b) && !b.dialed
    requires b.up.reserved && 0 < b.up.granted && |data| <= b.up.granted && b.up.buf == b.up.input[b.up.skipped..]
    ensures InStep(env, OnHandshakeRead(env, b, data, false, space))
  {
    hide S.Run, S.WellFormed, S.Same, S.Stopped, Dials, S.Asynchronous, Quiet, OnHandshakeRead;
    QuietWell(b.parser);
    RunQuiet(env, b.parser, b.up.buf + data);
    HandshakeFields(env, b, data, space);
    ParseMore(env, b.up.input, data, b.parser, b.up.skipped);
    var rest := S.Run(env, b.parser, b.up.buf + data).1;
    DropMore(b.up.input, b.up.skipped, data, |b.up.buf + data| - |rest|);
  }

  lemma HandshakeFields(env: S.Env, b: Bridge, data: seq<byte>, space: nat)
    requires S.WellFormed(b.parser) && b.up.reserved && 0 < b.up.granted && |data| <= b.up.granted
    requires |S.Run(env, b.parser, b.up.buf + data).1| <= |b.up.buf + data|
    ensures var (p, rest) := S.Run(env, b.parser, b.up.buf + data);
            var b' := OnHandshakeRead(env, b, data, false, space);
            && b'.parser == p && b'.up.input == b.up.input + data && b'.dialed == b.dialed
            && b'.up.skipped == b.up.skipped + (|b.up.buf + data| - |rest|)
  {
    hide S.Run;
  }

  lemma {:induction false} ParseMore(env: S.Env, input: seq<byte>, data: seq<byte>, p: S.Parser, k: nat)
    requires S.WellFormed(p) && k <= |input|
    requires S.Same(S.Run(env, S.START, input).0, p) && S.Run(env, S.START, input).1 == input[k..]
    ensures var r, whole := S.Run(env, p, input[k..] + data), S.Run(env, S.START, input + data);
            S.Same(whole.0, r.0) && whole.1 == r.1
  {
    hide S.Run;
    S.RunSplit(env, S.START, input, data);
    SameRuns(env, S.Run(env, S.START, input).0, p, input[k..] + data);
  }

  lemma QuietWell(p: S.Parser)
    requires Quiet(p)
    ensures S.WellFormed(p)
  {
  }

  /** States that differ only in what a failed handshake waits for run alike. */
  lemma SameRuns(env: S.Env, p: S.Parser, q: S.Parser, data: seq<byte>)
    requires S.WellFormed(p) && S.WellFormed(q) && S.Same(p, q)
    ensures S.Same(S.Run(env, p, data).0, S.Run(env, q, data).0) && S.Run(env, p, data).1 == S.Run(env, q, data).1
  {
    if p.state == S.Fail {
      S.StoppedStays(env, p, data);
      S.StoppedStays(env, q, data);
    } else {
      assert p == q;
    }
  }

  lemma DialedInv(env: S.Env, cap: nat, b: Bridge, failed: bool, g: Spaces)
    requires Inv(env, cap, b) && !b.dialed && Dials(b.parser.log) && Sized(cap, Dialed(failed), g)
    ensures Inv(env, cap, OnDialed(env, b, failed, g))
  {
    hide S.Run, Dials, S.SendFinal, Sound, Settled, Schedule;
    if !failed {
      ScheduleSound(cap, b.up, g.up);
      ScheduleSound(cap, b.down, g.down);
    }
  }

  /** Bytes that come after a stopped handshake are left to be forwarded. */
  lemma {:induction false} ParseAfterStop(env: S.Env, input: seq<byte>, data: seq<byte>, k: nat)
    requires k <= |input| && S.Stopped(S.Run(env, S.START, input).0) && S.Run(env, S.START, input).1 == input[k..]
    ensures S.Stopped(S.Run(env, S.START, input + data).0) && S.Run(env, S.START, input + data).1 == (input + data)[k..]
  {
    hide S.Run;
    DropMore(input, k, data, 0);
    S.RunSplit(env, S.START, input, data);
    S.StoppedStays(env, S.Run(env, S.START, input).0, input[k..] + data);
  }

  lemma UpInv(env: S.Env, cap: nat, b: Bridge, up: Direction, g: Spaces)
    requires Inv(env, cap, b) && b.forwarding && Sized(cap, Dialed(false), g)
    requires Sound(cap, false, up) && InStep(env, b.(up := up))
    ensures Inv(env, cap, Forward(b.(up := up), g))
  {
    ScheduleSound(cap, up, g.up);
    ScheduleSound(cap, b.down, g.down);
  }

  lemma DownInv(env: S.Env, cap: nat, b: Bridge, down: Direction, g: Spaces)
    requires Inv(env, cap, b) && b.forwarding && Sized(cap, Dialed(false), g)
    requires Sound(cap, false, down) && down.skipped == 0
    ensures Inv(env, cap, Forward(b.(down := down), g))
  {
    ScheduleSound(cap, b.up, g.up);
    ScheduleSound(cap, down, g.down);
  }

  /** Every step keeps the invariant. */
  lemma {:induction false} NextInv(env: S.Env, cap: nat, b: Bridge, e: Event, g: Spaces)
    requires S.Asynchronous(env) && Inv(env, cap, b) && Enabled(b, e) && Sized(cap, e, g)
    ensures Inv(env, cap, Next(env, b, e, g))
  {
    hide S.Run, Sound, Dials, S.Asynchronous, ReadDone, WriteDone, Forward;
    Pending(env, cap, b);
    match e
    case HandshakeRead(data, failed) => HandshakeReadInv(env, cap, b, data, failed, g.up);
    case Dialed(failed) => DialedInv(env, cap, b, failed, g);
    case ClientRead(data, failed) =>
      ReadSound(cap, b.up, data, failed);
      ParseAfterStop(env, b.up.input, data, b.up.skipped);
      UpInv(env, cap, b, ReadDone(b.up, data, failed), g);
    case ClientWritten(n, failed) =>
      WriteSound(cap, b.down, n, failed);
      DownInv(env, cap, b, WriteDone(b.down, n, failed), g);
    case DestRead(data, failed) =>
      ReadSound(cap, b.down, data, failed);
      DownInv(env, cap, b, ReadDone(b.down, data, failed), g);
    case DestWritten(n, failed) =>
      WriteSound(cap, b.up, n, failed);
      UpInv(env, cap, b, WriteDone(b.up, n, failed), g);
  }

  /** Operations other than the handshake are pending only while forwarding. */
  lemma Pending(env: S.Env, cap: nat, b: Bridge)
    requires Inv(env, cap, b)
    ensures b.up.reading || b.up.writing || b.down.reading || b.down.writing ==> b.forwarding && !b.greeting
    ensures b.forwarding ==> Sound(cap, false, b.up) && Sound(cap, false, b.down)
  {
  }

  /** The invariant holds in every reachable state, whatever the environment does. */
  lemma {:induction false} Reachable(env: S.Env, cap: nat, states: seq<Bridge>, steps: seq<Step>, k: nat)
    requires S.Asynchronous(env) && IsRun(env, cap, states, steps) && k < |states|
    ensures Inv(env, cap, states[k])
  {
    hide Inv, Next, S.Asynchronous;
    if k == 0 {
      var space :| 1 <= space < 1 + cap && states[0] == Start(space);
      StartInv(env, cap, space);
    } else {
      Reachable(env, cap, states, steps, k - 1);
      var s := steps[k - 1];
      assert Leads(env, cap, states[k - 1], s, states[k]);
      NextInv(env, cap, states[k - 1], s.e, s.g);
    }
  }

  // ---------------------------------------------------------------- theorems

  /** Bytes are neither lost nor invented nor reordered: in every reachable state, what was
      written to a sink followed by what is buffered is what was read from the source, less
      exactly what the handshake takes of the client's stream as a whole. */
  lemma {:induction false} StreamIntegrity(env: S.Env, cap: nat, states: seq<Bridge>, steps: seq<Step>, k: nat)
    requires S.Asynchronous(env) && IsRun(env, cap, states, steps) && k < |states|
    ensures var b := states[k];
            && b.down.output + b.down.buf == b.down.input
            && b.up.skipped <= |b.up.input| && b.up.output + b.up.buf == b.up.input[b.up.skipped..]
            && (b.forwarding ==> b.up.output + b.up.buf == S.Run(env, S.START, b.up.input).1)
  {
    Reachable(env, cap, states, steps, k);
    var b := states[k];
    assert b.down.input[0..] == b.down.input;
  }

  /** The flags agree with the buffers, no assertion of a buffer ever fails, and each
      direction buffers less than the limit, one read and one block together. */
  lemma {:induction false} FlagsAgree(env: S.Env, cap: nat, states: seq<Bridge>, steps: seq<Step>, k: nat)
    requires S.Asynchronous(env) && IsRun(env, cap, states, steps) && k < |states|
    ensures var b := states[k];
            && !b.up.crashed && !b.down.crashed
            && (b.up.reserved <==> b.up.reading || b.greeting) && (b.up.peeked <==> b.up.writing)
            && (b.down.reserved <==> b.down.reading) && (b.down.peeked <==> b.down.writing)
            && (b.up.writing ==> b.up.offered <= |b.up.buf|) && (b.down.writing ==> b.down.offered <= |b.down.buf|)
            && |b.up.buf| < 40 * 1024 + cap && |b.down.buf| < 40 * 1024 + cap
  {
    Reachable(env, cap, states, steps, k);
  }

  /** While forwarding, a direction without a pending operation has failed to write, or is
      complete: all bytes delivered, the end of the source seen and passed on. */
  lemma {:induction false} NeverStalls(env: S.Env, cap: nat, states: seq<Bridge>, steps: seq<Step>, k: nat)
    requires S.Asynchronous(env) && IsRun(env, cap, states, steps) && k < |states|
    requires states[k].forwarding
    ensures var b := states[k];
            && (!b.up.reading && !b.up.writing && !b.up.broken ==>
                  !b.up.readable && b.up.shutdowns == 1 && b.up.output == S.Run(env, S.START, b.up.input).1)
            && (!b.down.reading && !b.down.writing && !b.down.broken ==>
                  !b.down.readable && b.down.shutdowns == 1 && b.down.output == b.down.input)
            && (b.up.readable && b.up.writable && |b.up.buf| < 32 * 1024 ==> b.up.reading)
            && (b.down.readable && b.down.writable && |b.down.buf| < 32 * 1024 ==> b.down.reading)
            && (b.up.writable && b.up.buf != [] ==> b.up.writing)
            && (b.down.writable && b.down.buf != [] ==> b.down.writing)
  {
    Reachable(env, cap, states, steps, k);
    var b := states[k];
    if !b.up.reading && !b.up.writing {
      NoStall(cap, false, b.up);
    }
    if !b.down.reading && !b.down.writing {
      NoStall(cap, false, b.down);
      assert b.down.input[0..] == b.down.input;
    }
  }

  /** The sink was shut down, or takes no more bytes and no read is pending. */
  ghost predicate Final(d: Direction) {
    d.shutdowns > 0 || (!d.writable && !d.reading)
  }

  /** A step leaves a direction that is final as it is. */
  lemma FinalStays(env: S.Env, cap: nat, b: Bridge, e: Event, g: Spaces)
    requires Inv(env, cap, b) && Enabled(b, e)
    ensures Final(b.up) ==> Next(env, b, e, g).up == b.up
    ensures Final(b.down) ==> Next(env, b, e, g).down == b.down
  {
    hide S.Run, S.ConnectionSucceed, InStep, Quiet, Dials;
  }

  /** Sending to a socket is shut down at most once, only when the other side has ended,
      nothing is buffered and no write is pending; nothing is written to it afterwards. Nor
      is anything read once writing has failed, but for a read that is pending then. */
  lemma {:induction false} HalfClose(env: S.Env, cap: nat, states: seq<Bridge>, steps: seq<Step>, k: nat, n: nat)
    requires S.Asynchronous(env) && IsRun(env, cap, states, steps) && k <= n < |states|
    ensures var b, b' := states[k], states[n];
            && b.up.shutdowns == (if !b.up.readable && b.up.buf == [] then 1 else 0)
            && b.down.shutdowns == (if !b.down.readable && b.down.buf == [] then 1 else 0)
            && (Final(b.up) ==> !b.up.writing && b'.up == b.up)
            && (Final(b.down) ==> !b.down.writing && b'.down == b.down)
  {
    hide Next, S.Asynchronous, InStep, Quiet, S.WellFormed;
    if k == n {
      Reachable(env, cap, states, steps, k);
    } else {
      HalfClose(env, cap, states, steps, k, n - 1);
      Reachable(env, cap, states, steps, n - 1);
      var s := steps[n - 1];
      assert Leads(env, cap, states[n - 1], s, states[n]);
      FinalStays(env, cap, states[n - 1], s.e, s.g);
    }
  }

  /** The direction to the destination, or the one to the client. */
  function Side(b: Bridge, up: bool): (d: Direction) {
    if up then b.up else b.down
  }

  /** A write to the sink of that direction completed. */
  predicate IsWrite(e: Event, up: bool) {
    if up then e.DestWritten? else e.ClientWritten?
  }

  function WriteCount(steps: seq<Step>, k: nat, n: nat, up: bool): (c: nat)
    requires k <= n <= |steps|
  {
    if k == n then 0 else WriteCount(steps, k, n - 1, up) + if IsWrite(steps[n - 1].e, up) then 1 else 0
  }

  /** The writes of that direction succeed and take something. */
  predicate Succeeds(e: Event, up: bool) {
    IsWrite(e, up) ==> !e.failed && e.n > 0
  }

  /** A step once the source has ended: only a write changes the direction. */
  lemma EndedStep(env: S.Env, cap: nat, b: Bridge, e: Event, g: Spaces, up: bool)
    requires Inv(env, cap, b) && Enabled(b, e) && Sized(cap, e, g) && b.forwarding && Succeeds(e, up)
    requires !Side(b, up).readable && !Side(b, up).broken
    ensures var b' := Next(env, b, e, g);
            var d, d' := Side(b, up), Side(b', up);
            && b'.forwarding && !d'.readable && !d'.broken && d'.input == d.input && d'.skipped == d.skipped
            && (if IsWrite(e, up) then |d'.buf| < |d.buf| else d' == d)
  {
    hide S.Run, S.ConnectionSucceed, InStep, Quiet, Dials, Sound, Settled, Schedule, ReadDone, WriteDone;
    EndedPending(env, cap, b, up);
    ScheduleSound(cap, b.up, g.up);
    ScheduleSound(cap, b.down, g.down);
    if IsWrite(e, up) {
      EndedWrite(cap, Side(b, up), e.n, if up then g.up else g.down);
    }
  }

  lemma EndedPending(env: S.Env, cap: nat, b: Bridge, up: bool)
    requires Inv(env, cap, b) && b.forwarding && !Side(b, up).readable
    ensures !b.greeting && b.dialed && !Side(b, up).reading && Settled(b.up) && Settled(b.down)
    ensures Sound(cap, false, b.up) && Sound(cap, false, b.down)
    ensures Side(b, up).writing ==> Side(b, up).offered <= |Side(b, up).buf|
  {
  }

  lemma EndedWrite(cap: nat, d: Direction, n: nat, space: nat)
    requires Sound(cap, false, d) && d.writing && 0 < n <= d.offered && !d.readable && !d.broken
    requires READ_SIZE <= space < READ_SIZE + cap
    ensures var d' := Schedule(WriteDone(d, n, false), space);
            && !d'.readable && !d'.broken && d'.input == d.input && d'.skipped == d.skipped && |d'.buf| == |d.buf| - n
  {
    hide ScheduleRead, ScheduleWrite, WriteEnd;
    var d1 := WriteDone(d, n, false);
    WriteEndAtOnce(Drain(d.(writing := false), n), false);
    ReadPart(d1, space);
    WritePart(ScheduleRead(d1, space));
  }

  /** Once the source has ended, every run whose writes succeed delivers: each write takes
      the direction forward, and when none is pending any more all bytes that were buffered
      have been written, and the sink has been shut down. */
  lemma {:induction false} WritesDeliver(env: S.Env, cap: nat, states: seq<Bridge>, steps: seq<Step>, k: nat, n: nat,
                                         up: bool)
    requires S.Asynchronous(env) && IsRun(env, cap, states, steps) && k <= n < |states|
    requires states[k].forwarding && !Side(states[k], up).readable && !Side(states[k], up).broken
    requires forall j :: k <= j < n ==> Succeeds(steps[j].e, up)
    ensures var d, d' := Side(states[k], up), Side(states[n], up);
            && WriteCount(steps, k, n, up) + |d'.buf| <= |d.buf| && d'.output + d'.buf == d.output + d.buf
            && (!d'.writing ==> d'.output == d.output + d.buf && d'.shutdowns == 1)
  {
    hide Next, Inv, S.Asynchronous, IsRun;
    Progress(env, cap, states, steps, k, n, up);
    Reachable(env, cap, states, steps, k);
    Reachable(env, cap, states, steps, n);
    Delivered(env, cap, states[k], states[n], up);
  }

  lemma {:induction false} Progress(env: S.Env, cap: nat, states: seq<Bridge>, steps: seq<Step>, k: nat, n: nat,
                                    up: bool)
    requires S.Asynchronous(env) && IsRun(env, cap, states, steps) && k <= n < |states|
    requires states[k].forwarding && !Side(states[k], up).readable && !Side(states[k], up).broken
    requires forall j :: k <= j < n ==> Succeeds(steps[j].e, up)
    ensures var d, d' := Side(states[k], up), Side(states[n], up);
            && states[n].forwarding && !d'.readable && !d'.broken && d'.input == d.input && d'.skipped == d.skipped
            && WriteCount(steps, k, n, up) + |d'.buf| <= |d.buf|
  {
    hide Next, Inv, S.Asynchronous, Side, IsWrite;
    if k < n {
      Progress(env, cap, states, steps, k, n - 1, up);
      Reachable(env, cap, states, steps, n - 1);
      var s := steps[n - 1];
      assert Leads(env, cap, states[n - 1], s, states[n]);
      EndedStep(env, cap, states[n - 1], s.e, s.g, up);
    }
  }

  lemma Delivered(env: S.Env, cap: nat, b: Bridge, b': Bridge, up: bool)
    requires Inv(env, cap, b) && b.forwarding && Inv(env, cap, b') && b'.forwarding
    requires var d, d' := Side(b, up), Side(b', up);
             !d.readable && !d'.readable && !d'.broken && d'.input == d.input && d'.skipped == d.skipped
    ensures var d, d' := Side(b, up), Side(b', up);
            && d'.output + d'.buf == d.output + d.buf
            && (!d'.writing ==> d'.output == d.output + d.buf && d'.shutdowns == 1)
  {
    hide S.Run, InStep, Quiet, Dials, S.WellFormed, Settled;
    EndedPending(env, cap, b, up);
    EndedPending(env, cap, b', up);
    if !Side(b', up).writing {
      NoStall(cap, false, Side(b', up));
    }
  }

  // ---------------------------------------------------------------- what was replied

  /** While forwarding, the handshake has done what the bytes read lead to, and then sent
      the final reply, and nothing else. */
  ghost predicate Replied(env: S.Env, b: Bridge) {
    b.forwarding ==>
      var p := Parsed(env, b).0;
      (p.state == S.WaitConnect || p.state == S.WaitAccept) && b.parser == S.ConnectionSucceed(env, p).0
  }

  lemma ParseWaits(env: S.Env, input: seq<byte>, data: seq<byte>)
    requires S.Run(env, S.START, input).0.state == S.WaitConnect || S.Run(env, S.START, input).0.state == S.WaitAccept
    ensures S.Run(env, S.START, input + data).0 == S.Run(env, S.START, input).0
  {
    hide S.Run;
    var r := S.Run(env, S.START, input);
    S.RunSplit(env, S.START, input, data);
    S.StoppedStays(env, r.0, r.1 + data);
  }

  lemma NextReplied(env: S.Env, cap: nat, b: Bridge, e: Event, g: Spaces)
    requires Inv(env, cap, b) && Enabled(b, e) && Sized(cap, e, g) && Replied(env, b)
    ensures Replied(env, Next(env, b, e, g))
  {
    hide S.Run, Sound, Settled, Dials, Schedule, ReadDone, WriteDone, S.ConnectionSucceed, Quiet, Advance;
    Pending(env, cap, b);
    match e
    case HandshakeRead(_, _) =>
      HandshakeQuiet(env, b, e, g);
    case Dialed(failed) =>
      if !failed {
        ScheduleInput(b.up, g.up);
        ConnectedReplies(env, b.parser);
      }
    case ClientRead(data, failed) =>
      ReadSound(cap, b.up, data, failed);
      ScheduleInput(ReadDone(b.up, data, failed), g.up);
      ParseWaits(env, b.up.input, data);
    case ClientWritten(n, failed) =>
      ScheduleInput(b.up, g.up);
    case DestRead(data, failed) =>
      ScheduleInput(b.up, g.up);
    case DestWritten(n, failed) =>
      WriteSound(cap, b.up, n, failed);
      ScheduleInput(WriteDone(b.up, n, failed), g.up);
  }

  lemma ScheduleInput(d: Direction, space: nat)
    ensures Schedule(d, space).input == d.input
  {
    hide ScheduleRead, ScheduleWrite;
    ReadPart(d, space);
    WritePart(ScheduleRead(d, space));
  }

  lemma ConnectedReplies(env: S.Env, p: S.Parser)
    requires S.WellFormed(p)
    ensures S.ConnectionSucceed(env, p).1 ==> p.state == S.WaitConnect || p.state == S.WaitAccept
  {
  }

  lemma HandshakeQuiet(env: S.Env, b: Bridge, e: Event, g: Spaces)
    requires S.WellFormed(b.parser) && e.HandshakeRead?
    ensures Next(env, b, e, g).forwarding == b.forwarding
  {
    hide S.Run, Reserve, Commit;
  }

  /** In every state of every run, the replies are as described, and before forwarding
      begins nothing is read from the destination or written to the client. */
  lemma {:induction false} ReplyFirst(env: S.Env, cap: nat, states: seq<Bridge>, steps: seq<Step>, k: nat)
    requires S.Asynchronous(env) && IsRun(env, cap, states, steps) && k < |states|
    ensures Replied(env, states[k])
    ensures !states[k].forwarding ==> states[k].down == IDLE
  {
    hide Inv, Next, S.Asynchronous, Replied;
    Reachable(env, cap, states, steps, k);
    if !states[k].forwarding {
      BeforeForwarding(env, cap, states[k]);
    }
    if k == 0 {
      StartReplied(env, cap, states[0]);
    } else {
      ReplyFirst(env, cap, states, steps, k - 1);
      Reachable(env, cap, states, steps, k - 1);
      var s := steps[k - 1];
      assert Leads(env, cap, states[k - 1], s, states[k]);
      NextReplied(env, cap, states[k - 1], s.e, s.g);
    }
  }

  lemma BeforeForwarding(env: S.Env, cap: nat, b: Bridge)
    requires Inv(env, cap, b) && !b.forwarding
    ensures b.down == IDLE
  {
  }

  lemma StartReplied(env: S.Env, cap: nat, b: Bridge)
    requires Starts(cap, b)
    ensures Replied(env, b)
  {
  }

  // ---------------------------------------------------------------- states and events

  /** The bytes that a completion brings from the source of a direction. */
  function Brought(e: Event, up: bool): (data: seq<byte>) {
    match e
    case HandshakeRead(data, _) => if up then data else []
    case ClientRead(data, _) => if up then data else []
    case DestRead(data, _) => if up then [] else data
    case _ => []
  }

  /** How many bytes the sink of a direction took with a completion. */
  function Took(e: Event, up: bool): (n: nat) {
    if IsWrite(e, up) then e.n else 0
  }

  /** The source of a direction ended or failed while forwarding. */
  predicate SourceEnds(e: Event, up: bool) {
    if up then e.ClientRead? && e.failed else e.DestRead? && e.failed
  }

  predicate WriteFails(e: Event, up: bool) {
    IsWrite(e, up) && e.failed
  }

  /** What the events of the first k steps brought from a source, and sent to a sink. */
  function AllBrought(steps: seq<Step>, k: nat, up: bool): (data: seq<byte>)
    requires k <= |steps|
  {
    if k == 0 then [] else AllBrought(steps, k - 1, up) + Brought(steps[k - 1].e, up)
  }

  function AllTook(steps: seq<Step>, k: nat, up: bool): (n: nat)
    requires k <= |steps|
  {
    if k == 0 then 0 else AllTook(steps, k - 1, up) + Took(steps[k - 1].e, up)
  }

  /** How a completion changes a direction, as far as bytes and flags go. */
  ghost predicate Effect(d: Direction, e: Event, up: bool, d': Direction) {
    && d'.input == d.input + Brought(e, up)
    && Took(e, up) <= |d.buf| && d'.output == d.output + d.buf[..Took(e, up)]
    && (IsWrite(e, up) ==> d'.buf == d.buf[e.n..])
    && d'.readable == (d.readable && !SourceEnds(e, up))
    && d'.broken == (d.broken || WriteFails(e, up))
    && d'.writable == (d.writable && !WriteFails(e, up) && !(IsWrite(e, up) && !d.readable && d'.buf == []))
  }

  lemma ScheduleKeeps(d: Direction, space: nat)
    ensures var d' := Schedule(d, space);
            && d'.input == d.input && d'.skipped == d.skipped && d'.output == d.output && d'.buf == d.buf
            && d'.readable == d.readable && d'.writable == d.writable && d'.broken == d.broken
            && d'.shutdowns == d.shutdowns
  {
    hide ScheduleRead, ScheduleWrite;
    ReadPart(d, space);
    WritePart(ScheduleRead(d, space));
  }

  lemma ReadEffect(d: Direction, data: seq<byte>, failed: bool, space: nat)
    requires d.reserved && 0 < d.granted && |data| <= d.granted
    ensures Effect(d, ClientRead(data, failed), true, Schedule(ReadDone(d, data, failed), space))
    ensures Effect(d, DestRead(data, failed), false, Schedule(ReadDone(d, data, failed), space))
  {
    hide Schedule;
    ScheduleKeeps(ReadDone(d, data, failed), space);
    assert d.output + d.buf[..0] == d.output;
  }

  lemma WriteEffect(d: Direction, n: nat, failed: bool, space: nat)
    requires d.peeked && n <= |d.buf|
    ensures Effect(d, DestWritten(n, failed), true, Schedule(WriteDone(d, n, failed), space))
    ensures Effect(d, ClientWritten(n, failed), false, Schedule(WriteDone(d, n, failed), space))
  {
    hide Schedule;
    ScheduleKeeps(WriteDone(d, n, failed), space);
    assert d.input + [] == d.input;
  }

  /** A completion that does not concern a direction leaves its bytes and flags. */
  lemma NoEffect(d: Direction, e: Event, up: bool, d': Direction)
    requires Brought(e, up) == [] && !IsWrite(e, up) && !SourceEnds(e, up)
    requires d'.input == d.input && d'.output == d.output && d'.readable == d.readable && d'.broken == d.broken
    requires d'.writable == d.writable
    ensures Effect(d, e, up, d')
  {
    assert d.input + [] == d.input && d.output + d.buf[..0] == d.output;
  }

  /** Nothing was read, written, ended or broken. */
  ghost predicate Keeps(d: Direction, d': Direction) {
    && d'.input == d.input && d'.output == d.output && d'.reading == d.reading
    && d'.readable == d.readable && d'.writable == d.writable && d'.broken == d.broken
  }

  lemma ReserveKeeps(d: Direction, space: nat)
    ensures Keeps(d, Reserve(d, space)) && Reserve(d, space).buf == d.buf
  {
  }

  lemma LeaveKeeps(d: Direction, rest: seq<byte>)
    ensures Keeps(d, Leave(d, rest)) && Leave(d, rest).buf == rest
  {
  }

  lemma KeepsTrans(d: Direction, d': Direction, d'': Direction)
    requires Keeps(d, d') && Keeps(d', d'')
    ensures Keeps(d, d'')
  {
  }

  lemma AdvanceEffect(env: S.Env, b: Bridge, space: nat)
    requires S.WellFormed(b.parser)
    ensures var b' := Advance(env, b, space);
            && Keeps(b.up, b'.up) && b' == b.(parser := b'.parser, greeting := b'.greeting, up := b'.up)
            && (b'.greeting <==> |b'.up.buf| < b'.parser.required)
  {
    hide S.Run, Reserve, Keeps, Leave, S.WellFormed;
    var rest := S.Run(env, b.parser, b.up.buf).1;
    var up := Leave(b.up, rest);
    LeaveKeeps(b.up, rest);
    ReserveKeeps(up, space);
    KeepsTrans(b.up, up, Reserve(up, space));
  }

  lemma ReadKeeps(d: Direction, data: seq<byte>, failed: bool, d': Direction)
    requires d.reserved && 0 < d.granted && |data| <= d.granted && Keeps(Commit(d, data), d')
    ensures Effect(d, HandshakeRead(data, failed), true, d') && d'.reading == d.reading
  {
    assert d.output + d.buf[..0] == d.output;
  }

  lemma KeepsItself(d: Direction)
    ensures Keeps(d, d)
  {
  }

  lemma HandshakeEffect(env: S.Env, b: Bridge, data: seq<byte>, failed: bool, g: Spaces)
    requires S.WellFormed(b.parser) && b.up.reserved && 0 < b.up.granted && |data| <= b.up.granted
    ensures var b' := Next(env, b, HandshakeRead(data, failed), g);
            && Effect(b.up, HandshakeRead(data, failed), true, b'.up) && b'.down == b.down
            && b'.up.reading == b.up.reading
            && b'.aborted == failed && b'.dialed == b.dialed && b'.forwarding == b.forwarding
            && (b'.greeting <==> !failed && |b'.up.buf| < b'.parser.required)
  {
    hide Advance, Commit, Keeps, Effect;
    var b1 := b.(greeting := false, aborted := failed, up := Commit(b.up, data));
    if failed {
      KeepsItself(b1.up);
    } else {
      AdvanceEffect(env, b1, g.up);
    }
    ReadKeeps(b.up, data, failed, Next(env, b, HandshakeRead(data, failed), g).up);
  }

  lemma DialedEffect(env: S.Env, b: Bridge, failed: bool, g: Spaces)
    requires S.WellFormed(b.parser)
    ensures var b' := Next(env, b, Dialed(failed), g);
            && b'.dialed && b'.aborted == b.aborted && b'.greeting == b.greeting
            && b'.parser.required == b.parser.required
            && b'.forwarding == (if failed then b.forwarding else IsWaiting(b.parser))
            && (b'.up == b.up || b'.up == Schedule(b.up, g.up))
            && (b'.down == b.down || b'.down == Schedule(b.down, g.down))
  {
    hide Schedule, S.ConnectionSucceed;
    ConnectedRequires(env, b.parser);
  }

  predicate IsWaiting(p: S.Parser) {
    p.state == S.WaitConnect || p.state == S.WaitAccept
  }

  lemma ConnectedRequires(env: S.Env, p: S.Parser)
    requires S.WellFormed(p)
    ensures var r := S.ConnectionSucceed(env, p); r.0.required == p.required && r.1 == IsWaiting(p)
  {
  }

  /** What a completion does to both directions, in any reachable state. */
  lemma StepEffect(env: S.Env, cap: nat, b: Bridge, e: Event, g: Spaces, up: bool)
    requires Inv(env, cap, b) && Enabled(b, e) && Sized(cap, e, g)
    ensures Effect(Side(b, up), e, up, Side(Next(env, b, e, g), up))
  {
    hide S.Run, S.ConnectionSucceed, InStep, Quiet, Dials, Settled, Schedule, ReadDone, WriteDone, Effect, Advance;
    ScheduleKeeps(b.up, g.up);
    ScheduleKeeps(b.down, g.down);
    match e
    case HandshakeRead(data, failed) =>
      HandshakeEffect(env, b, data, failed, g);
      NoEffect(b.down, e, false, b.down);
    case Dialed(failed) =>
      DialedEffect(env, b, failed, g);
      NoEffect(b.up, e, true, Next(env, b, e, g).up);
      NoEffect(b.down, e, false, Next(env, b, e, g).down);
    case ClientRead(data, failed) =>
      ReadEffect(b.up, data, failed, g.up);
      NoEffect(b.down, e, false, Schedule(b.down, g.down));
    case ClientWritten(n, failed) =>
      WriteEffect(b.down, n, failed, g.down);
      NoEffect(b.up, e, true, Schedule(b.up, g.up));
    case DestRead(data, failed) =>
      ReadEffect(b.down, data, failed, g.down);
      NoEffect(b.up, e, true, Schedule(b.up, g.up));
    case DestWritten(n, failed) =>
      WriteEffect(b.up, n, failed, g.up);
      NoEffect(b.down, e, false, Schedule(b.down, g.down));
  }

  /** Every state of every run is what the events before it say, for both directions: read
      was what the reads brought; written are as many bytes as the writes took; the source
      has ended exactly if a read said so; writing has failed exactly if a write did. With
      StreamIntegrity this fixes the bytes written and the bytes buffered. */
  lemma {:induction false} Ledger(env: S.Env, cap: nat, states: seq<Bridge>, steps: seq<Step>, k: nat, up: bool)
    requires S.Asynchronous(env) && IsRun(env, cap, states, steps) && k < |states|
    ensures var d := Side(states[k], up);
            && d.input == AllBrought(steps, k, up) && |d.output| == AllTook(steps, k, up)
            && (!d.readable <==> exists j :: 0 <= j < k && SourceEnds(steps[j].e, up))
            && (d.broken <==> exists j :: 0 <= j < k && WriteFails(steps[j].e, up))
  {
    hide Next, Inv, S.Asynchronous, SourceEnds, WriteFails, Took, Brought, IsWrite;
    if k > 0 {
      Ledger(env, cap, states, steps, k - 1, up);
      Reachable(env, cap, states, steps, k - 1);
      var s := steps[k - 1];
      assert Leads(env, cap, states[k - 1], s, states[k]);
      StepEffect(env, cap, states[k - 1], s.e, s.g, up);
    }
  }

  /** Each write takes exactly its bytes from the front of the buffer to the sink, and
      nothing else is ever written. */
  lemma {:induction false} WritesMove(env: S.Env, cap: nat, states: seq<Bridge>, steps: seq<Step>, k: nat, up: bool)
    requires S.Asynchronous(env) && IsRun(env, cap, states, steps) && k < |steps|
    ensures var d, d', e := Side(states[k], up), Side(states[k + 1], up), steps[k].e;
            if IsWrite(e, up)
            then e.n <= |d.buf| && d'.output == d.output + d.buf[..e.n] && d'.buf == d.buf[e.n..]
            else d'.output == d.output
  {
    hide Next, Inv, S.Asynchronous;
    Reachable(env, cap, states, steps, k);
    assert Leads(env, cap, states[k], steps[k], states[k + 1]);
    StepEffect(env, cap, states[k], steps[k].e, steps[k].g, up);
  }

  predicate HandshakeFails(e: Event) {
    e.HandshakeRead? && e.failed
  }

  /** The phases of a run by its events: the handshake was given up exactly if one of its
      reads failed; a connection was made or refused exactly if that was an event; the bridge
      forwards exactly if one was made while the handshake waited for it; and it is reading
      for the handshake exactly as long as that needs more bytes. */
  lemma {:induction false} Phases(env: S.Env, cap: nat, states: seq<Bridge>, steps: seq<Step>, k: nat)
    requires S.Asynchronous(env) && IsRun(env, cap, states, steps) && k < |states|
    ensures var b := states[k];
            && (b.aborted <==> exists j :: 0 <= j < k && HandshakeFails(steps[j].e))
            && (b.dialed <==> exists j :: 0 <= j < k && steps[j].e.Dialed?)
            && (b.forwarding <==>
                  exists j :: 0 <= j < k && steps[j].e == Dialed(false) && IsWaiting(states[j].parser))
            && (b.greeting <==> !b.aborted && |b.up.buf| < b.parser.required)
            && (b.dialed ==> b.parser.required == 0)
  {
    hide Next, Inv, S.Asynchronous, HandshakeFails, IsWaiting;
    if k == 0 {
      PhaseStart(cap, states[0]);
    } else {
      Phases(env, cap, states, steps, k - 1);
      Reachable(env, cap, states, steps, k - 1);
      var s := steps[k - 1];
      assert Leads(env, cap, states[k - 1], s, states[k]);
      PhaseStep(env, cap, states[k - 1], s.e, s.g);
      assert steps[k - 1] == s;
    }
  }

  lemma PhaseStart(cap: nat, b: Bridge)
    requires Starts(cap, b)
    ensures !b.aborted && !b.dialed && !b.forwarding && b.greeting && |b.up.buf| < b.parser.required
  {
  }

  lemma PhaseStep(env: S.Env, cap: nat, b: Bridge, e: Event, g: Spaces)
    requires Inv(env, cap, b) && Enabled(b, e) && (b.greeting <==> !b.aborted && |b.up.buf| < b.parser.required)
    requires b.dialed ==> b.parser.required == 0
    ensures var b' := Next(env, b, e, g);
            && b'.aborted == (b.aborted || HandshakeFails(e)) && b'.dialed == (b.dialed || e.Dialed?)
            && b'.forwarding == (b.forwarding || (e == Dialed(false) && IsWaiting(b.parser)))
            && (b'.greeting <==> !b'.aborted && |b'.up.buf| < b'.parser.required)
            && (b'.dialed ==> b'.parser.required == 0)
  {
    hide S.Run, S.ConnectionSucceed, InStep, Dials, Settled, Schedule, ReadDone, WriteDone, Effect, Advance, Sound;
    match e
    case HandshakeRead(data, failed) =>
      PendingHandshake(env, cap, b);
      HandshakeEffect(env, b, data, failed, g);
    case Dialed(failed) =>
      DialedEffect(env, b, failed, g);
    case _ =>
      ForwardingPhase(env, cap, b, e, g);
  }

  /** While forwarding, the handshake is over. */
  lemma ForwardingPhase(env: S.Env, cap: nat, b: Bridge, e: Event, g: Spaces)
    requires Inv(env, cap, b) && Enabled(b, e) && !e.HandshakeRead? && !e.Dialed?
    ensures var b' := Next(env, b, e, g);
            && b.forwarding && b.dialed && b'.parser == b.parser && b'.aborted == b.aborted && b'.dialed == b.dialed
            && b'.forwarding && !b'.greeting
  {
    hide Schedule, ReadDone, WriteDone, InStep, Settled;
  }

  lemma PendingHandshake(env: S.Env, cap: nat, b: Bridge)
    requires Inv(env, cap, b) && b.greeting
    ensures b.up.reserved && 0 < b.up.granted && !b.forwarding && !b.dialed && !b.aborted
  {
  }

  /** A refused connection ends the run: nothing was called, nothing is forwarded, and
      nothing is pending. */
  lemma {:induction false} Refusal(env: S.Env, cap: nat, states: seq<Bridge>, steps: seq<Step>, k: nat)
    requires S.Asynchronous(env) && IsRun(env, cap, states, steps) && k < |steps| && steps[k].e == Dialed(true)
    ensures states[k + 1] == states[k].(dialed := true) && !states[k + 1].forwarding && k + 1 == |steps|
  {
    hide Next, Inv, S.Asynchronous, Effect;
    Reachable(env, cap, states, steps, k);
    Reachable(env, cap, states, steps, k + 1);
    assert Leads(env, cap, states[k], steps[k], states[k + 1]);
    RefusedStep(env, cap, states[k], steps[k].g);
    if k + 1 < |steps| {
      assert Leads(env, cap, states[k + 1], steps[k + 1], states[k + 2]);
      NothingPending(env, cap, states[k + 1], steps[k + 1].e);
    }
  }

  lemma RefusedStep(env: S.Env, cap: nat, b: Bridge, g: Spaces)
    requires Inv(env, cap, b) && Enabled(b, Dialed(true))
    ensures Next(env, b, Dialed(true), g) == b.(dialed := true) && !b.forwarding
  {
  }

  lemma NothingPending(env: S.Env, cap: nat, b: Bridge, e: Event)
    requires Inv(env, cap, b) && b.dialed && !b.forwarding
    ensures !Enabled(b, e)
  {
  }

  /** A read of the source of that direction completed. */
  predicate IsRead(e: Event, up: bool) {
    if up then e.ClientRead? else e.DestRead?
  }

  lemma ReadStarts(cap: nat, d: Direction, space: nat)
    requires 8 * 1024 <= space < 8 * 1024 + cap && !d.reserved
    ensures var d' := Schedule(d, space);
            !d.reading && d'.reading ==>
              && d'.readable && d'.writable && |d'.buf| < 32 * 1024
              && d'.reserved && 8 * 1024 <= d'.granted < 8 * 1024 + cap
  {
    hide ScheduleRead, ScheduleWrite;
    ReadPart(d, space);
    WritePart(ScheduleRead(d, space));
  }

  lemma NotReserved(cap: nat, d: Direction)
    requires Sound(cap, false, d) && !d.reading
    ensures !d.reserved
  {
  }

  lemma ReadingAfterRead(d: Direction, data: seq<byte>, failed: bool)
    ensures !ReadDone(d, data, failed).reading
  {
  }

  lemma ReadingAfterWrite(d: Direction, n: nat, failed: bool)
    ensures WriteDone(d, n, failed).reading == d.reading
  {
    hide WriteEnd, Drain;
    ReadingAfterDrain(d.(writing := false), n);
    ReadingAfterEnd(Drain(d.(writing := false), n), failed);
  }

  lemma ReadingAfterDrain(d: Direction, n: nat)
    ensures Drain(d, n).reading == d.reading
  {
  }

  lemma ReadingAfterEnd(d: Direction, failed: bool)
    ensures WriteEnd(d, failed).reading == d.reading
  {
    hide WriteEnd;
    WriteEndAtOnce(d, failed);
  }

  lemma StepStarts(env: S.Env, cap: nat, b: Bridge, e: Event, g: Spaces, up: bool)
    requires Inv(env, cap, b) && Enabled(b, e) && Sized(cap, e, g)
    ensures var d, d' := Side(b, up), Side(Next(env, b, e, g), up);
            d'.reading && (!d.reading || IsRead(e, up)) ==>
              && d'.readable && d'.writable && |d'.buf| < 32 * 1024
              && d'.reserved && 8 * 1024 <= d'.granted < 8 * 1024 + cap
  {
    hide S.Run, S.ConnectionSucceed, InStep, Quiet, Dials, Settled, Schedule, ReadDone, WriteDone, Effect, Advance,
         Sound;
    Pending(env, cap, b);
    match e
    case HandshakeRead(data, failed) =>
      PendingHandshake(env, cap, b);
      HandshakeEffect(env, b, data, failed, g);
    case Dialed(failed) =>
      DialedEffect(env, b, failed, g);
      DialedIdle(env, cap, b);
      ReadStarts(cap, b.up, g.up);
      ReadStarts(cap, b.down, g.down);
    case ClientRead(data, failed) =>
      ReadSound(cap, b.up, data, failed);
      ReadingAfterRead(b.up, data, failed);
      SideStarts(cap, ReadDone(b.up, data, failed), g.up);
      SideStarts(cap, b.down, g.down);
    case ClientWritten(n, failed) =>
      WriteSound(cap, b.down, n, failed);
      ReadingAfterWrite(b.down, n, failed);
      SideStarts(cap, WriteDone(b.down, n, failed), g.down);
      SideStarts(cap, b.up, g.up);
    case DestRead(data, failed) =>
      ReadSound(cap, b.down, data, failed);
      ReadingAfterRead(b.down, data, failed);
      SideStarts(cap, ReadDone(b.down, data, failed), g.down);
      SideStarts(cap, b.up, g.up);
    case DestWritten(n, failed) =>
      WriteSound(cap, b.up, n, failed);
      ReadingAfterWrite(b.up, n, failed);
      SideStarts(cap, WriteDone(b.up, n, failed), g.up);
      SideStarts(cap, b.down, g.down);
  }

  lemma SideStarts(cap: nat, d: Direction, space: nat)
    requires Sound(cap, false, d) && 8 * 1024 <= space < 8 * 1024 + cap
    ensures var d' := Schedule(d, space);
            !d.reading && d'.reading ==>
              && d'.readable && d'.writable && |d'.buf| < 32 * 1024
              && d'.reserved && 8 * 1024 <= d'.granted < 8 * 1024 + cap
  {
    hide Schedule, Sound;
    if !d.reading {
      NotReserved(cap, d);
      ReadStarts(cap, d, space);
    }
  }

  lemma DialedIdle(env: S.Env, cap: nat, b: Bridge)
    requires Inv(env, cap, b) && !b.dialed && Dials(b.parser.log)
    ensures !b.up.reserved && !b.up.reading && !b.down.reserved && !b.down.reading
  {
  }

  /** Backpressure: a read of a source is started only while that source has not ended, its
      sink takes bytes and fewer than 32 KiB are buffered, and with at least 8 KiB of space
      but less than a block more. */
  lemma {:induction false} Backpressure(env: S.Env, cap: nat, states: seq<Bridge>, steps: seq<Step>, k: nat, up: bool)
    requires S.Asynchronous(env) && IsRun(env, cap, states, steps) && k < |steps|
    ensures var d, d' := Side(states[k], up), Side(states[k + 1], up);
            d'.reading && (!d.reading || IsRead(steps[k].e, up)) ==>
              && d'.readable && d'.writable && |d'.buf| < 32 * 1024
              && 8 * 1024 <= d'.granted < 8 * 1024 + cap
  {
    hide Next, Inv, S.Asynchronous;
    Reachable(env, cap, states, steps, k);
    assert Leads(env, cap, states[k], steps[k], states[k + 1]);
    StepStarts(env, cap, states[k], steps[k].e, steps[k].g, up);
  }
}
