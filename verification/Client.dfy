/** The SOCKS5 client of the preload library. */
module Client {
  import opened Blocks
  import opened Protocol
  import H = Handshake

  /** What one call of recv finds. */
  datatype Arrival = Bytes(data: seq<byte>) | Interrupted | Broken | Closed

  /** The bytes that arrive before the connection is closed or breaks. */
  ghost function Stream(script: seq<Arrival>): (s: seq<byte>) {
    if script == [] then []
    else
      match script[0]
      case Bytes(data) => if data == [] then [] else data + Stream(script[1..])
      case Interrupted => Stream(script[1..])
      case Broken => []
      case Closed => []
  }

  /** A connected socket; `script` is what arrives, in whatever pieces. */
  class Socket {
    var script: seq<Arrival>
    var sent: seq<byte>

    constructor (script: seq<Arrival>)
      ensures this.script == script && sent == []
    {
      this.script, sent := script, [];
    }

    /** Receives at most `len` bytes; nothing when the other side has closed. */
    method Recv(len: nat) returns (r: Arrival)
      requires len > 0
      modifies this`script
      ensures r.Bytes? ==> 0 < |r.data| <= len && Stream(old(script)) == r.data + Stream(script)
      ensures r.Interrupted? ==> Stream(script) == Stream(old(script)) && |script| < |old(script)|
      ensures r.Broken? || r.Closed? ==> Stream(old(script)) == []
    {
      if script == [] {
        return Closed;
      }
      r := script[0];
      var rest := script[1..];
      if r.Bytes? && r.data == [] {
        r := Closed;
      } else if r.Bytes? && |r.data| > len {
        script := [Bytes(r.data[len..])] + rest;
        assert script[1..] == rest && r.data == r.data[..len] + r.data[len..];
        Assoc(r.data[..len], r.data[len..], Stream(rest));
        r := Bytes(r.data[..len]);
      } else {
        script := rest;
      }
    }

    /** Receives `len` bytes into `buf`, or as many as arrive before the end. */
    method RecvAll(buf: array<byte>, at: nat, len: nat) returns (received: nat)
      requires at + len <= buf.Length
      modifies this`script, buf
      ensures received == if len < |Stream(old(script))| then len else |Stream(old(script))|
      ensures received == len ==> Stream(script) == Stream(old(script))[len..]
      ensures buf[..at] == old(buf[..at]) && buf[at..at + received] == Stream(old(script))[..received]
      ensures buf[at + received..] == old(buf[..])[at + received..]
    {
      ghost var all := Stream(script);
      received := 0;
      while received < len
        invariant received <= len && received <= |all| && Stream(script) == all[received..]
        invariant buf[..at] == old(buf[..at]) && buf[at..at + received] == all[..received]
        invariant buf[at + received..] == old(buf[..])[at + received..]
        decreases len - received, |script|
      {
        var r := Recv(len - received);
        match r {
          case Interrupted =>
          case Broken => return;
          case Closed => return;
          case Bytes(data) =>
            ghost var before := buf[..];
            CopyBytes(buf, at + received, data);
            ReceiveMore(all, received, data, before, buf[..], at);
            received := received + |data|;
        }
      }
    }
  }

  lemma ReceiveMore(all: seq<byte>, n: nat, data: seq<byte>, before: seq<byte>, after: seq<byte>, at: nat)
    requires n + |data| <= |all| && data <= all[n..] && at + n + |data| <= |before|
    requires after == before[..at + n] + data + before[at + n + |data|..] && before[at..at + n] == all[..n]
    ensures after[..at] == before[..at] && after[at..at + n + |data|] == all[..n + |data|]
    ensures after[at + n + |data|..] == before[at + n..][|data|..]
    ensures all[n..][|data|..] == all[n + |data|..]
  {
    assert all[n..][..|data|] == data;
    assert all[..n + |data|] == all[..n] + data;
    assert after[at..at + n + |data|] == before[at..at + n] + data;
  }

  const EXPECTED: seq<byte> := [5, 0, 5, 0, 0]

  /** The bytes the client sends for an address. */
  function Hello(a: SockAddr): (m: seq<byte>) {
    [5, 1, 0] + H.Request(1, a)
  }

  /** How many bytes of a reply follow its ATYP and the byte behind it. */
  function Remaining(atyp: byte, extra: byte): (n: nat) {
    if atyp == ATYP_V4 then 4 + 2 - 1
    else if atyp == ATYP_FQDN then extra as nat + 2
    else if atyp == ATYP_V6 then 16 + 2 - 1
    else |EXPECTED| + 2
  }

  /** What the client returns for what arrives, and how many bytes it takes if it returns 0. */
  function Verdict(stream: seq<byte>): (r: (int, nat)) {
    if |stream| < 7 then (-1, 0)
    else if stream[..5] != EXPECTED then (if stream[3] != 0 then -(stream[3] as int) else -1, 0)
    else
      var n := 7 + Remaining(stream[5], stream[6]);
      if |stream| < n then (-1, 0) else (0, n)
  }

  /** The body of a reply, by its kind of address: four bytes, sixteen, a counted name, or for
      kinds that the client does not know one byte and seven more; then the port. */
  ghost predicate IsBody(atyp: byte, m: seq<byte>) {
    match atyp as int
    case 1 => |m| == 4 + 2
    case 4 => |m| == 16 + 2
    case 3 => |m| > 0 && |m| == 1 + m[0] as int + 2
    case _ => |m| == 1 + 7
  }

  /** The client succeeds, and takes n bytes, exactly when these are the reply to the greeting
      and a reply with REP 0 and a body. */
  lemma VerdictExactly(stream: seq<byte>, n: nat)
    ensures Verdict(stream) == (0, n) <==>
            && 7 <= n <= |stream| && stream[..5] == [5, 0, 5, 0, 0] && IsBody(stream[5], stream[6..n])
  {
  }

  /** An error reply gives its REP as a negative number; anything else that goes wrong, -1. */
  lemma RefusalExactly(stream: seq<byte>)
    requires Verdict(stream).0 != 0
    ensures Verdict(stream).0 ==
            if |stream| >= 7 && stream[..5] != [5, 0, 5, 0, 0] && stream[3] != 0 then -(stream[3] as int) else -1
  {
  }

  /** If the stream breaks off after n bytes, the client succeeds exactly when it would have
      without that, and all it takes has come before. */
  lemma VerdictCut(stream: seq<byte>, n: nat)
    requires n <= |stream|
    ensures Verdict(stream[..n]).0 == 0 <==> Verdict(stream).0 == 0 && Verdict(stream).1 <= n
    ensures Verdict(stream[..n]).0 == 0 ==> Verdict(stream[..n]) == Verdict(stream)
  {
    if n >= 7 {
      assert stream[..n][..5] == stream[..5];
    }
  }

  /** How many of `len` bytes a send took that returned `result`. */
  function Taken(result: int, len: nat): (n: nat)
    ensures n <= len && (n == len <== result == len)
  {
    if result < 0 then 0 else if result < len then result else len
  }

  /** Performs the client side of the handshake; `accepted` is what sending the hello
      returned: how many bytes the network took, or that it failed. The result depends on
      the bytes that arrive, not on how they are cut, and on success exactly the reply was
      taken off the socket. */
  method Socks5ClientConnect(sock: Socket, a: SockAddr, accepted: int) returns (result: int)
    requires Protocol.WellFormed(a)
    modifies sock
    ensures a.OtherFamily? ==> result == -1 && sock.sent == old(sock.sent) && sock.script == old(sock.script)
    ensures !a.OtherFamily? ==> sock.sent == old(sock.sent) + Hello(a)[..Taken(accepted, |Hello(a)|)]
    ensures !a.OtherFamily? && accepted != |Hello(a)| ==> result == -1 && sock.script == old(sock.script)
    ensures !a.OtherFamily? && accepted == |Hello(a)| ==>
              var stream := Stream(old(sock.script));
              && result == Verdict(stream).0
              && (result == 0 ==> Verdict(stream).1 <= |stream| && Stream(sock.script) == stream[Verdict(stream).1..])
  {
    var buffer := new byte[64];
    var outSize := FillHello(buffer, a);
    if outSize == 0 {
      return -1;
    }
    sock.sent := sock.sent + buffer[..outSize][..Taken(accepted, outSize)];
    if accepted != outSize {
      return -1;
    }
    result := ReceiveReply(sock, buffer);
  }

  /** Writes the greeting and the request; returns their size, or 0 for an address the
      protocol cannot carry. */
  method FillHello(buffer: array<byte>, a: SockAddr) returns (outSize: nat)
    requires buffer.Length == 64 && Protocol.WellFormed(a)
    modifies buffer
    ensures outSize == 0 <==> a.OtherFamily?
    ensures outSize > 0 ==> outSize == |Hello(a)| <= 64 && buffer[..outSize] == Hello(a)
  {
    var prefix: seq<byte> := [5, 1, 0, 5, 1, 0];
    CopyBytes(buffer, 0, prefix);
    assert buffer[..6] == prefix;
    var copied := FillAddrPort(buffer, 6, a);
    outSize := if copied == 0 then 0 else 6 + copied;
    assert Hello(a) == prefix + AddrPort(a);
  }

  method ReceiveReply(sock: Socket, buffer: array<byte>) returns (result: int)
    requires buffer.Length == 64
    modifies sock`script, buffer
    ensures var stream := Stream(old(sock.script));
            && result == Verdict(stream).0
            && (result == 0 ==> Verdict(stream).1 <= |stream| && Stream(sock.script) == stream[Verdict(stream).1..])
  {
    ghost var stream := Stream(sock.script);
    var received := sock.RecvAll(buffer, 0, 7);
    if received != 7 {
      return -1;
    }
    assert buffer[..7] == stream[..7];
    assert forall i :: 0 <= i < 7 ==> buffer[i] == buffer[..7][i];
    assert buffer[..5] == stream[..5];
    if buffer[..5] != EXPECTED {
      return if buffer[3] != 0 then -(buffer[3] as int) else -1;
    }
    var extra := buffer[6];
    var toReceive := Remaining(buffer[5], extra);
    var addrBuf := buffer;
    if toReceive + 1 > 64 {
      addrBuf := new byte[toReceive + 1];
    }
    addrBuf[0] := extra;
    received := sock.RecvAll(addrBuf, 1, toReceive);
    assert |stream| >= 7 + toReceive ==> stream[7..][toReceive..] == stream[7 + toReceive..];
    result := if received != toReceive then -1 else 0;
  }
}
