/** The proxy bridge as an object over two buffers and a handshake; its handlers refine the
    transition system of module Bridge. */
module ProxyBridges {
  import opened Blocks
  import Layouts
  import opened Buffers
  import opened Socks5States
  import S = Socks5
  import B = Bridge

  /** What happened so far. */
  datatype History = History(
    greeting: bool, aborted: bool, dialed: bool, forwarding: bool,
    upIn: seq<byte>, skipped: nat, upOut: seq<byte>, upShut: nat, upBroken: bool,
    downIn: seq<byte>, downOut: seq<byte>, downShut: nat, downBroken: bool)

  class ProxyBridge {
    const up: Buffer
    const down: Buffer
    const socks: Socks5State
    var readingClient: bool
    var writingClient: bool
    var clientReadable: bool
    var clientWritable: bool
    var readingDest: bool
    var writingDest: bool
    var destReadable: bool
    var destWritable: bool
    /** The memory the pending reads were given. */
    var upRegions: seq<Extent>
    var downRegions: seq<Extent>
    ghost var h: History

    ghost function Up(): (d: B.Direction)
      requires Parts()
      reads this, up, up.freelist, down, down.freelist
    {
      B.Direction(readingClient, clientReadable, writingDest, destWritable,
                  up.Contents(), up.reserved, up.ReservedSize(), up.peeked, up.PeekedSize(),
                  h.upIn, h.skipped, h.upOut, h.upShut, h.upBroken, false)
    }

    ghost function Down(): (d: B.Direction)
      requires Parts()
      reads this, up, up.freelist, down, down.freelist
    {
      B.Direction(readingDest, destReadable, writingClient, clientWritable,
                  down.Contents(), down.reserved, down.ReservedSize(), down.peeked, down.PeekedSize(),
                  h.downIn, 0, h.downOut, h.downShut, h.downBroken, false)
    }

    /** The parts are valid and apart, and the pending reads hold what was reserved. */
    ghost predicate Parts()
      reads this, up, up.freelist, down, down.freelist
    {
      && up.Valid() && down.Valid() && up != down && up.freelist != down.freelist
      && up.capacity == down.capacity > 0
      && (up.reserved ==> upRegions == up.shadow.grant) && (down.reserved ==> downRegions == down.shadow.grant)
    }

    ghost function View(): (b: B.Bridge)
      requires Parts()
      reads this, up, up.freelist, down, down.freelist, socks
    {
      B.Bridge(socks.View(), h.greeting, h.aborted, h.dialed, h.forwarding, Up(), Down())
    }

    ghost predicate Valid()
      reads this, up, up.freelist, down, down.freelist, socks
    {
      Parts() && B.Inv(socks.env, up.capacity, View())
    }

    constructor (env: S.Env, capacity: nat)
      requires capacity > 0
      ensures Parts() && fresh(up) && fresh(up.freelist) && fresh(down) && fresh(down.freelist) && fresh(socks)
      ensures socks.env == env && up.capacity == capacity
      ensures View() == B.Bridge(S.START, false, false, false, false, B.IDLE, B.IDLE)
    {
      up := new Buffer(capacity);
      down := new Buffer(capacity);
      socks := new Socks5State(env);
      readingClient, writingClient, clientReadable, clientWritable := false, false, true, true;
      readingDest, writingDest, destReadable, destWritable := false, false, true, true;
      upRegions, downRegions := [], [];
      h := History(false, false, false, false, [], 0, [], 0, false, [], [], 0, false);
    }

    /** Starts the handshake by reading the client. */
    method PerformSocks5Handshake() returns (space: nat)
      requires Parts() && View() == B.Bridge(S.START, false, false, false, false, B.IDLE, B.IDLE)
      modifies this, up, up.freelist
      ensures Valid() && 1 <= space < 1 + up.capacity && View() == B.Start(space)
    {
      hide Buffer.Valid, Buffer.Contents;
      var size;
      upRegions, size := up.ReserveAtLeast(1);
      space := size;
      h := h.(greeting := true);
      B.StartInv(socks.env, up.capacity, space);
    }

    /** Lets the handshake take what it can of the bytes read. */
    method TakeHandshake()
      requires Parts() && S.WellFormed(socks.View()) && !up.peeked
      requires |S.Run(socks.env, socks.View(), up.Contents()).1| <= |up.Contents()|
      modifies this`h, up, up.freelist, socks
      ensures Parts() && Down() == old(Down()) && h == old(h).(skipped := h.skipped)
      ensures var (p, rest) := S.Run(socks.env, old(socks.View()), old(up.Contents()));
              && socks.View() == p
              && Up() == old(Up()).(buf := rest, skipped := old(Up()).skipped + (|old(up.Contents())| - |rest|))
    {
      hide Buffer.Valid, Buffer.Contents, S.Run, S.WellFormed, Locs;
      ghost var before := up.dataSize;
      socks.Drive(up);
      h := h.(skipped := h.skipped + (before - up.dataSize));
    }

    lemma Mirrored()
      requires Parts()
      ensures |Up().buf| == up.dataSize && |Down().buf| == down.dataSize
      ensures Up().readable == clientReadable && Up().writable == destWritable
      ensures Down().readable == destReadable && Down().writable == clientWritable
    {
    }

    lemma Buffered()
      requires Parts()
      ensures up.Valid() && Up().buf == up.Contents() && |Up().buf| == up.dataSize
      ensures Up().peeked == up.peeked && up.capacity > 0
    {
    }

    /** Lets the handshake take what it can of the bytes read, and reads more if needed. */
    method Advance() returns (space: nat)
      requires Parts() && S.WellFormed(socks.View()) && !Up().reserved && !Up().peeked && !h.greeting
      requires |S.Run(socks.env, socks.View(), Up().buf).1| <= |Up().buf|
      modifies this, up, up.freelist, socks
      ensures Parts() && 1 <= space < 1 + up.capacity
      ensures View() == B.Advance(socks.env, old(View()), space)
    {
      hide Buffer.Valid, Buffer.Contents, S.Run, S.WellFormed, Locs, ProxyBridge.Parts, ProxyBridge.Up,
           ProxyBridge.Down, B.Advance, B.Reserve;
      ghost var b := View();
      Buffered();
      TakeHandshake();
      Buffered();
      B.AdvanceParts(socks.env, b, Up());
      space := 1;
      if up.dataSize < socks.required {
        space := ReadHandshake();
      }
    }

    /** Schedules a read for the handshake. */
    method ReadHandshake() returns (space: nat)
      requires Parts() && !Up().reserved
      modifies this`h, this`upRegions, up, up.freelist
      ensures Parts() && 1 <= space < 1 + up.capacity
      ensures Up() == B.Reserve(old(Up()), space) && Down() == old(Down()) && h == old(h).(greeting := true)
    {
      hide Buffer.Valid, Buffer.Contents, Locs;
      var size;
      upRegions, size := up.ReserveAtLeast(1);
      space := size;
      h := h.(greeting := true);
    }

    /** A read for the handshake completed. */
    method Socks5HandshakeHandler(data: seq<byte>, failed: bool) returns (g: B.Spaces)
      requires Valid() && B.Enabled(View(), B.HandshakeRead(data, failed)) && S.Asynchronous(socks.env)
      modifies this, up, up.freelist, socks
      ensures Valid() && B.Sized(up.capacity, B.HandshakeRead(data, failed), g)
      ensures View() == B.Next(socks.env, old(View()), B.HandshakeRead(data, failed), g)
    {
      hide Buffer.Valid, Buffer.Contents, S.Run, S.WellFormed, B.Inv, B.Quiet, B.Dials, B.Advance, Locs, S.Asynchronous;
      ghost var env, cap, b, e := socks.env, up.capacity, View(), B.HandshakeRead(data, failed);
      var space := 1;
      HandshakeSetup(b);
      up.Receive(upRegions, data);
      h := h.(greeting := false, aborted := failed, upIn := h.upIn + data);
      if !failed {
        B.RunQuiet(env, b.parser, up.Contents());
        space := Advance();
      }
      g := B.Spaces(space, 1);
      assert View() == B.Next(env, b, e, g);
      B.NextInv(env, cap, b, e, g);
    }

    lemma HandshakeSetup(b: B.Bridge)
      requires Valid() && b == View() && b.greeting
      ensures B.Quiet(b.parser) && S.WellFormed(b.parser) && up.reserved && !up.peeked && 0 < b.up.granted
      ensures !b.aborted
    {
    }

    /** Schedules a read of the client. */
    method ReadClient() returns (space: nat)
      requires Parts() && !up.reserved
      modifies this`readingClient, this`upRegions, up, up.freelist
      ensures Parts() && B.READ_SIZE <= space < B.READ_SIZE + up.capacity
      ensures Up() == B.Reserve(old(Up()), space).(reading := true) && Down() == old(Down())
    {
      hide Buffer.Valid, Buffer.Contents, Locs;
      var size;
      upRegions, size := up.ReserveAtLeast(B.READ_SIZE);
      readingClient := true;
      space := size;
    }

    /** Schedules a read of the destination. */
    method ReadDest() returns (space: nat)
      requires Parts() && !down.reserved
      modifies this`readingDest, this`downRegions, down, down.freelist
      ensures Parts() && B.READ_SIZE <= space < B.READ_SIZE + down.capacity
      ensures Down() == B.Reserve(old(Down()), space).(reading := true) && Up() == old(Up())
    {
      hide Buffer.Valid, Buffer.Contents, Locs;
      var size;
      downRegions, size := down.ReserveAtLeast(B.READ_SIZE);
      readingDest := true;
      space := size;
    }

    /** Schedules a write to the client. */
    method WriteClient()
      requires Parts() && !down.peeked
      modifies this`writingClient, down
      ensures Parts() && Down() == B.Peek(old(Down())).(writing := true) && Up() == old(Up())
    {
      hide Buffer.Valid, Buffer.Contents, Locs;
      var offered := down.Peek();
      writingClient := true;
    }

    /** Schedules a write to the destination. */
    method WriteDest()
      requires Parts() && !up.peeked
      modifies this`writingDest, up
      ensures Parts() && Up() == B.Peek(old(Up())).(writing := true) && Down() == old(Down())
    {
      hide Buffer.Valid, Buffer.Contents, Locs;
      var offered := up.Peek();
      writingDest := true;
    }

    /** Schedules the operations on the client that the flags and the buffers call for. */
    method ForwardClient() returns (space: nat)
      requires Parts() && (up.reserved ==> readingClient) && (down.peeked ==> writingClient)
      modifies this`readingClient, this`writingClient, this`upRegions, up, up.freelist, down
      ensures Parts() && B.READ_SIZE <= space < B.READ_SIZE + up.capacity
      ensures Up() == B.ScheduleRead(old(Up()), space) && Down() == B.ScheduleWrite(old(Down()))
    {
      hide Buffer.Valid, Buffer.Contents, Buffer.ReservedSize, Buffer.PeekedSize, Locs;
      space := B.READ_SIZE;
      if !readingClient && clientReadable && destWritable && up.dataSize < B.MAX_BUFFER {
        space := ReadClient();
      }
      if !writingClient && clientWritable && down.dataSize > 0 {
        WriteClient();
      }
    }

    /** Schedules the operations on the destination that the flags and the buffers call for. */
    method ForwardDest() returns (space: nat)
      requires Parts() && (down.reserved ==> readingDest) && (up.peeked ==> writingDest)
      modifies this`readingDest, this`writingDest, this`downRegions, down, down.freelist, up
      ensures Parts() && B.READ_SIZE <= space < B.READ_SIZE + down.capacity
      ensures Down() == B.ScheduleRead(old(Down()), space) && Up() == B.ScheduleWrite(old(Up()))
    {
      hide Buffer.Valid, Buffer.Contents, Buffer.ReservedSize, Buffer.PeekedSize, Locs;
      space := B.READ_SIZE;
      if !readingDest && destReadable && clientWritable && down.dataSize < B.MAX_BUFFER {
        space := ReadDest();
      }
      if !writingDest && destWritable && up.dataSize > 0 {
        WriteDest();
      }
    }

    /** Schedules all operations that the flags and the buffers call for. */
    method ForwardTraffic() returns (g: B.Spaces)
      requires Parts() && B.Sound(up.capacity, false, Up()) && B.Sound(up.capacity, false, Down())
      modifies this`readingClient, this`writingClient, this`readingDest, this`writingDest
      modifies this`upRegions, this`downRegions, up, up.freelist, down, down.freelist
      ensures Parts() && B.Sized(up.capacity, B.Dialed(false), g)
      ensures Up() == B.Schedule(old(Up()), g.up) && Down() == B.Schedule(old(Down()), g.down)
    {
      hide Buffer.Valid, Buffer.Contents, Buffer.ReservedSize, Buffer.PeekedSize, Locs;
      ghost var down0 := Down();
      var upSpace := ForwardClient();
      var downSpace := ForwardDest();
      B.ScheduleAnyOrder(down0, downSpace);
      g := B.Spaces(upSpace, downSpace);
    }

    lemma PendingRead(b: B.Bridge)
      requires Valid() && b == View()
      ensures b.up.reading ==> b.up.reserved && 0 < b.up.granted
      ensures b.down.reading ==> b.down.reserved && 0 < b.down.granted
      ensures b.up.reading || b.down.reading ==>
              B.Sound(up.capacity, false, b.up) && B.Sound(up.capacity, false, b.down)
      ensures S.WellFormed(b.parser)
    {
    }

    lemma PendingWrite(b: B.Bridge)
      requires Valid() && b == View()
      ensures b.up.writing ==> b.up.peeked && b.up.offered <= |b.up.buf|
      ensures b.down.writing ==> b.down.peeked && b.down.offered <= |b.down.buf|
      ensures b.up.writing || b.down.writing ==>
              B.Sound(up.capacity, false, b.up) && B.Sound(up.capacity, false, b.down)
      ensures S.WellFormed(b.parser)
    {
    }

    /** A read of the client completed: its bytes are committed. */
    method CommitClientRead(data: seq<byte>)
      requires Parts() && Up().reserved && 0 < Up().granted && |data| <= Up().granted
      modifies this`readingClient, this`h, up, up.freelist
      ensures Parts() && Up() == B.Commit(old(Up()).(reading := false), data) && Down() == old(Down())
      ensures h == old(h).(upIn := h.upIn)
    {
      hide Buffer.Valid, Buffer.Contents, Locs;
      up.Receive(upRegions, data);
      readingClient := false;
      h := h.(upIn := h.upIn + data);
    }

    /** The client ended or failed; with nothing buffered, sending to the destination is shut down. */
    method EndClientRead()
      requires Parts()
      modifies this`clientReadable, this`h
      ensures Parts() && Down() == old(Down())
      ensures Up() == old(Up()).(readable := false,
                                 shutdowns := old(Up()).shutdowns + (if old(Up()).buf == [] then 1 else 0))
      ensures h == old(h).(upShut := h.upShut)
    {
      hide Buffer.Valid, Buffer.Contents, Buffer.ReservedSize, Buffer.PeekedSize, Locs;
      clientReadable := false;
      h := h.(upShut := h.upShut + if up.dataSize == 0 then 1 else 0);
    }

    method ClientReadHandler(data: seq<byte>, failed: bool) returns (g: B.Spaces)
      requires Valid() && B.Enabled(View(), B.ClientRead(data, failed)) && S.Asynchronous(socks.env)
      modifies this, up, up.freelist, down, down.freelist
      ensures Valid() && B.Sized(up.capacity, B.ClientRead(data, failed), g)
      ensures View() == B.Next(socks.env, old(View()), B.ClientRead(data, failed), g)
    {
      hide Buffer.Valid, Locs, ProxyBridge.Parts, ProxyBridge.Up, ProxyBridge.Down, B.Inv, B.Sound, B.Commit,
           B.Schedule, S.Asynchronous, S.WellFormed;
      ghost var b, e := View(), B.ClientRead(data, failed);
      PendingRead(b);
      B.ReadSound(up.capacity, b.up, data, failed);
      CommitClientRead(data);
      if failed {
        EndClientRead();
      }
      g := ForwardTraffic();
      B.NextInv(socks.env, up.capacity, b, e, g);
    }

    /** A read of the destination completed: its bytes are committed. */
    method CommitDestRead(data: seq<byte>)
      requires Parts() && Down().reserved && 0 < Down().granted && |data| <= Down().granted
      modifies this`readingDest, this`h, down, down.freelist
      ensures Parts() && Down() == B.Commit(old(Down()).(reading := false), data) && Up() == old(Up())
      ensures h == old(h).(downIn := h.downIn)
    {
      hide Buffer.Valid, Buffer.Contents, Locs;
      down.Receive(downRegions, data);
      readingDest := false;
      h := h.(downIn := h.downIn + data);
    }

    /** The destination ended or failed; with nothing buffered, sending to the client is shut down. */
    method EndDestRead()
      requires Parts()
      modifies this`destReadable, this`h
      ensures Parts() && Up() == old(Up())
      ensures Down() == old(Down()).(readable := false,
                                     shutdowns := old(Down()).shutdowns + (if old(Down()).buf == [] then 1 else 0))
      ensures h == old(h).(downShut := h.downShut)
    {
      hide Buffer.Valid, Buffer.Contents, Buffer.ReservedSize, Buffer.PeekedSize, Locs;
      destReadable := false;
      h := h.(downShut := h.downShut + if down.dataSize == 0 then 1 else 0);
    }

    method DestReadHandler(data: seq<byte>, failed: bool) returns (g: B.Spaces)
      requires Valid() && B.Enabled(View(), B.DestRead(data, failed)) && S.Asynchronous(socks.env)
      modifies this, up, up.freelist, down, down.freelist
      ensures Valid() && B.Sized(up.capacity, B.DestRead(data, failed), g)
      ensures View() == B.Next(socks.env, old(View()), B.DestRead(data, failed), g)
    {
      hide Buffer.Valid, Locs, ProxyBridge.Parts, ProxyBridge.Up, ProxyBridge.Down, B.Inv, B.Sound, B.Commit,
           B.Schedule, S.Asynchronous, S.WellFormed;
      ghost var b, e := View(), B.DestRead(data, failed);
      PendingRead(b);
      B.ReadSound(up.capacity, b.down, data, failed);
      CommitDestRead(data);
      if failed {
        EndDestRead();
      }
      g := ForwardTraffic();
      B.NextInv(socks.env, up.capacity, b, e, g);
    }

    /** A write to the client completed: what it took is drained. */
    method DrainClientWrite(n: nat)
      requires Parts() && Down().peeked && n <= |Down().buf|
      modifies this`writingClient, this`h, down, down.freelist
      ensures Parts() && Down() == B.Drain(old(Down()).(writing := false), n) && Up() == old(Up())
      ensures h == old(h).(downOut := h.downOut)
    {
      hide Buffer.Valid, Buffer.Contents, Buffer.SpaceBytes, Locs, Layouts.Space;
      ghost var written := down.Contents()[..n];
      down.Drain(n);
      writingClient := false;
      h := h.(downOut := h.downOut + written);
    }

    /** Notes that a write to the client failed; with the source ended and nothing left to
        write, shuts sending down. */
    method EndClientWrite(failed: bool)
      requires Parts()
      modifies this`clientWritable, this`h
      ensures Parts() && Up() == old(Up())
      ensures Down() == B.WriteEnded(old(Down()), failed, !old(Down()).readable && |old(Down()).buf| == 0)
      ensures h == old(h).(downShut := h.downShut, downBroken := h.downBroken)
    {
      hide Buffer.Valid, Locs, ProxyBridge.Parts, ProxyBridge.Up, ProxyBridge.Down;
      Mirrored();
      var over := !destReadable && down.dataSize == 0;
      ghost var d := Down();
      ghost var shutdowns := if over then d.shutdowns + 1 else d.shutdowns;
      SetClientWritable(clientWritable && !failed && !over, d.broken || failed, shutdowns);
    }

    method SetClientWritable(writable: bool, ghost broken: bool, ghost shutdowns: nat)
      requires Parts()
      modifies this`clientWritable, this`h
      ensures Parts() && Up() == old(Up())
      ensures Down() == old(Down()).(writable := writable, broken := broken, shutdowns := shutdowns)
      ensures h == old(h).(downShut := h.downShut, downBroken := h.downBroken)
    {
      hide Buffer.Valid, Buffer.Contents, Buffer.ReservedSize, Buffer.PeekedSize, Locs;
      clientWritable := writable;
      h := h.(downBroken := broken, downShut := shutdowns);
    }

    method ClientWriteHandler(n: nat, failed: bool) returns (g: B.Spaces)
      requires Valid() && B.Enabled(View(), B.ClientWritten(n, failed)) && S.Asynchronous(socks.env)
      modifies this, up, up.freelist, down, down.freelist
      ensures Valid() && B.Sized(up.capacity, B.ClientWritten(n, failed), g)
      ensures View() == B.Next(socks.env, old(View()), B.ClientWritten(n, failed), g)
    {
      hide Buffer.Valid, Locs, ProxyBridge.Parts, ProxyBridge.Up, ProxyBridge.Down, B.Inv, B.Sound, B.Drain,
           B.WriteEnd, B.WriteEnded, B.Schedule, S.Asynchronous, S.WellFormed;
      ghost var b, e := View(), B.ClientWritten(n, failed);
      PendingWrite(b);
      B.WriteSound(up.capacity, b.down, n, failed);
      DrainClientWrite(n);
      B.WriteEndAtOnce(Down(), failed);
      EndClientWrite(failed);
      g := ForwardTraffic();
      B.NextInv(socks.env, up.capacity, b, e, g);
    }

    /** A write to the destination completed: what it took is drained. */
    method DrainDestWrite(n: nat)
      requires Parts() && Up().peeked && n <= |Up().buf|
      modifies this`writingDest, this`h, up, up.freelist
      ensures Parts() && Up() == B.Drain(old(Up()).(writing := false), n) && Down() == old(Down())
      ensures h == old(h).(upOut := h.upOut)
    {
      hide Buffer.Valid, Buffer.Contents, Buffer.SpaceBytes, Locs, Layouts.Space;
      ghost var written := up.Contents()[..n];
      up.Drain(n);
      writingDest := false;
      h := h.(upOut := h.upOut + written);
    }

    /** Notes that a write to the destination failed; with the source ended and nothing left to
        write, shuts sending down. */
    method EndDestWrite(failed: bool)
      requires Parts()
      modifies this`destWritable, this`h
      ensures Parts() && Down() == old(Down())
      ensures Up() == B.WriteEnded(old(Up()), failed, !old(Up()).readable && |old(Up()).buf| == 0)
      ensures h == old(h).(upShut := h.upShut, upBroken := h.upBroken)
    {
      hide Buffer.Valid, Locs, ProxyBridge.Parts, ProxyBridge.Up, ProxyBridge.Down;
      Mirrored();
      var over := !clientReadable && up.dataSize == 0;
      ghost var d := Up();
      ghost var shutdowns := if over then d.shutdowns + 1 else d.shutdowns;
      SetDestWritable(destWritable && !failed && !over, d.broken || failed, shutdowns);
    }

    method SetDestWritable(writable: bool, ghost broken: bool, ghost shutdowns: nat)
      requires Parts()
      modifies this`destWritable, this`h
      ensures Parts() && Down() == old(Down())
      ensures Up() == old(Up()).(writable := writable, broken := broken, shutdowns := shutdowns)
      ensures h == old(h).(upShut := h.upShut, upBroken := h.upBroken)
    {
      hide Buffer.Valid, Buffer.Contents, Buffer.ReservedSize, Buffer.PeekedSize, Locs;
      destWritable := writable;
      h := h.(upBroken := broken, upShut := shutdowns);
    }

    method DestWriteHandler(n: nat, failed: bool) returns (g: B.Spaces)
      requires Valid() && B.Enabled(View(), B.DestWritten(n, failed)) && S.Asynchronous(socks.env)
      modifies this, up, up.freelist, down, down.freelist
      ensures Valid() && B.Sized(up.capacity, B.DestWritten(n, failed), g)
      ensures View() == B.Next(socks.env, old(View()), B.DestWritten(n, failed), g)
    {
      hide Buffer.Valid, Locs, ProxyBridge.Parts, ProxyBridge.Up, ProxyBridge.Down, B.Inv, B.Sound, B.Drain,
           B.WriteEnd, B.WriteEnded, B.Schedule, S.Asynchronous, S.WellFormed;
      ghost var b, e := View(), B.DestWritten(n, failed);
      PendingWrite(b);
      B.WriteSound(up.capacity, b.up, n, failed);
      DrainDestWrite(n);
      B.WriteEndAtOnce(Up(), failed);
      EndDestWrite(failed);
      g := ForwardTraffic();
      B.NextInv(socks.env, up.capacity, b, e, g);
    }

    /** The connection to the destination was made, or a peer connected, or neither. */
    method ConnectHandler(failed: bool) returns (g: B.Spaces)
      requires Valid() && B.Enabled(View(), B.Dialed(failed)) && S.Asynchronous(socks.env)
      modifies this, up, up.freelist, down, down.freelist, socks
      ensures Valid() && B.Sized(up.capacity, B.Dialed(failed), g)
      ensures View() == B.Next(socks.env, old(View()), B.Dialed(failed), g)
    {
      if failed {
        g := Refused();
      } else {
        g := Connected();
      }
    }

    method Refused() returns (g: B.Spaces)
      requires Valid() && B.Enabled(View(), B.Dialed(true)) && S.Asynchronous(socks.env)
      modifies this`h
      ensures Valid() && B.Sized(up.capacity, B.Dialed(true), g)
      ensures View() == B.Next(socks.env, old(View()), B.Dialed(true), g)
    {
      hide Buffer.Valid, Locs, ProxyBridge.Parts, ProxyBridge.Up, ProxyBridge.Down, B.Inv, S.Asynchronous, B.Dials,
           S.WellFormed;
      ghost var b := View();
      g := B.Spaces(B.READ_SIZE, B.READ_SIZE);
      BeforeDialing(b);
      B.NextInv(socks.env, up.capacity, b, B.Dialed(true), g);
      NoteDialed();
    }

    ghost method NoteDialed()
      requires Parts()
      modifies this`h
      ensures Parts() && Up() == old(Up()) && Down() == old(Down()) && h == old(h).(dialed := true)
    {
      hide Buffer.Valid, Buffer.Contents, Buffer.ReservedSize, Buffer.PeekedSize, Locs;
      h := h.(dialed := true);
    }

    /** Finishes the handshake and starts forwarding. */
    method Connected() returns (g: B.Spaces)
      requires Valid() && B.Enabled(View(), B.Dialed(false)) && S.Asynchronous(socks.env)
      modifies this, up, up.freelist, down, down.freelist, socks
      ensures Valid() && B.Sized(up.capacity, B.Dialed(false), g)
      ensures View() == B.Next(socks.env, old(View()), B.Dialed(false), g)
    {
      hide Buffer.Valid, Locs, ProxyBridge.Parts, ProxyBridge.Up, ProxyBridge.Down, B.Inv, B.Sound, B.Schedule,
           S.Asynchronous, B.Dials, S.WellFormed, S.ConnectionSucceed;
      ghost var b := View();
      g := B.Spaces(B.READ_SIZE, B.READ_SIZE);
      BeforeDialing(b);
      var ok := FinishHandshake();
      if ok {
        g := ForwardTraffic();
      }
      B.NextInv(socks.env, up.capacity, b, B.Dialed(false), g);
    }

    method FinishHandshake() returns (ok: bool)
      requires Parts() && S.WellFormed(socks.View())
      modifies this`h, socks
      ensures Parts() && Up() == old(Up()) && Down() == old(Down())
      ensures (socks.View(), ok) == S.ConnectionSucceed(socks.env, old(socks.View()))
      ensures h == old(h).(dialed := true, forwarding := ok)
    {
      hide Buffer.Valid, Buffer.Contents, Buffer.ReservedSize, Buffer.PeekedSize, Locs, S.WellFormed,
           S.ConnectionSucceed;
      ok := socks.ConnectionSucceed();
      h := h.(dialed := true, forwarding := ok);
    }

    lemma BeforeDialing(b: B.Bridge)
      requires Valid() && b == View() && !b.dialed && B.Dials(b.parser.log)
      ensures S.WellFormed(b.parser) && !b.forwarding && up.capacity > 0
      ensures B.Sound(up.capacity, false, b.up) && B.Sound(up.capacity, false, b.down)
    {
    }

    /** Calls the handler of a completion. */
    method Handle(e: B.Event) returns (g: B.Spaces)
      requires Valid() && B.Enabled(View(), e) && S.Asynchronous(socks.env)
      modifies this, up, up.freelist, down, down.freelist, socks
      ensures Valid() && B.Sized(up.capacity, e, g)
      ensures View() == B.Next(socks.env, old(View()), e, g)
    {
      hide ProxyBridge.Valid, ProxyBridge.View, B.Next, B.Enabled, B.Sized, S.Asynchronous;
      match e
      case HandshakeRead(data, failed) => g := Socks5HandshakeHandler(data, failed);
      case Dialed(failed) => g := ConnectHandler(failed);
      case ClientRead(data, failed) => g := ClientReadHandler(data, failed);
      case ClientWritten(n, failed) => g := ClientWriteHandler(n, failed);
      case DestRead(data, failed) => g := DestReadHandler(data, failed);
      case DestWritten(n, failed) => g := DestWriteHandler(n, failed);
    }

    lemma ViewWellFormed()
      requires Valid()
      ensures S.WellFormed(View().parser)
    {
      hide Buffer.Valid, Buffer.Contents, Locs, B.Sound, B.Settled, B.InStep, B.Quiet;
    }
  }

  /** What completes next, given the sizes of the reservations made so far: the first one,
      and those made in response to each completion. */
  type Choice = (nat, seq<B.Spaces>) -> B.Event

  ghost function Sizes(steps: seq<B.Step>): (gs: seq<B.Spaces>)
    ensures |gs| == |steps| && forall k :: 0 <= k < |steps| ==> gs[k] == steps[k].g
  {
    seq(|steps|, k requires 0 <= k < |steps| => steps[k].g)
  }

  /** The completions of a run are the ones chosen. */
  ghost predicate Chosen(choose: Choice, space: nat, steps: seq<B.Step>) {
    forall k :: 0 <= k < |steps| ==> steps[k].e == choose(space, Sizes(steps[..k]))
  }

  /** Only what is pending completes, for n steps. */
  ghost predicate Playable(env: S.Env, cap: nat, choose: Choice, n: nat) {
    forall states: seq<B.Bridge>, steps: seq<B.Step> ::
      B.IsRun(env, cap, states, steps) && |steps| < n && Chosen(choose, states[0].up.granted, steps) ==>
        B.Enabled(states[|steps|], choose(states[0].up.granted, Sizes(steps)))
  }

  lemma ChosenMore(choose: Choice, space: nat, steps: seq<B.Step>, s: B.Step)
    requires Chosen(choose, space, steps) && s.e == choose(space, Sizes(steps))
    ensures Chosen(choose, space, steps + [s])
  {
    var more := steps + [s];
    forall k | 0 <= k < |more|
      ensures more[k].e == choose(space, Sizes(more[..k]))
    {
      assert more[..k] == steps[..k];
    }
  }

  /** The life of a connection: the handlers are called as the completions come, whichever
      the environment chooses. The states of the object are a run of the transition system,
      so what holds in every run holds of them. */
  method Serve(env: S.Env, capacity: nat, choose: Choice, n: nat)
    returns (bridge: ProxyBridge, ghost states: seq<B.Bridge>, ghost steps: seq<B.Step>)
    requires capacity > 0 && S.Asynchronous(env) && Playable(env, capacity, choose, n)
    ensures bridge.Valid() && bridge.socks.env == env && bridge.up.capacity == capacity
    ensures B.IsRun(env, capacity, states, steps) && |steps| == n && bridge.View() == states[n]
    ensures Chosen(choose, states[0].up.granted, steps)
  {
    hide Buffer.Valid, ProxyBridge.Parts, ProxyBridge.View, ProxyBridge.Up, ProxyBridge.Down, B.Inv, B.Next,
         B.Enabled, B.Sized, S.Asynchronous, S.WellFormed;
    bridge := new ProxyBridge(env, capacity);
    var space := bridge.PerformSocks5Handshake();
    var sizes: seq<B.Spaces> := [];
    states, steps := [bridge.View()], [];
    assert B.Starts(capacity, states[0]);
    for i := 0 to n
      invariant bridge.Valid() && bridge.socks.env == env && bridge.up.capacity == capacity
      invariant B.IsRun(env, capacity, states, steps) && |steps| == i && bridge.View() == states[i]
      invariant states[0].up.granted == space && sizes == Sizes(steps) && Chosen(choose, space, steps)
    {
      var e := choose(space, sizes);
      bridge.ViewWellFormed();
      var g := bridge.Handle(e);
      ghost var s := B.Step(e, g);
      B.RunMore(env, capacity, states, steps, s, bridge.View());
      ChosenMore(choose, space, steps, s);
      states, steps, sizes := states + [bridge.View()], steps + [s], sizes + [g];
    }
  }
}
