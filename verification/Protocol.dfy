/** Socket addresses and ports as they appear in SOCKS5 messages. */
module Protocol {
  import opened Blocks

  newtype u16 = x: int | 0 <= x < 0x1_0000

  /** A socket address; addresses and ports are kept in network byte order. */
  datatype SockAddr = V4(ip: seq<byte>, port: seq<byte>) | V6(ip: seq<byte>, port: seq<byte>) | OtherFamily

  ghost predicate WellFormed(a: SockAddr) {
    match a
    case V4(ip, port) => |ip| == 4 && |port| == 2
    case V6(ip, port) => |ip| == 16 && |port| == 2
    case OtherFamily => true
  }

  const ATYP_V4: byte := 1
  const ATYP_FQDN: byte := 3
  const ATYP_V6: byte := 4

  /** ATYP, address and port of a message; nothing for other address families. */
  function AddrPort(a: SockAddr): (m: seq<byte>) {
    match a
    case V4(ip, port) => [ATYP_V4] + ip + port
    case V6(ip, port) => [ATYP_V6] + ip + port
    case OtherFamily => []
  }

  /** Copies bytes to position `at` of a message. */
  method CopyBytes(msg: array<byte>, at: nat, bytes: seq<byte>)
    requires at + |bytes| <= msg.Length
    modifies msg
    ensures msg[..] == old(msg[..at]) + bytes + old(msg[at + |bytes|..])
  {
    forall i | 0 <= i < |bytes| {
      msg[at + i] := bytes[i];
    }
  }

  /** Writes ATYP, address and port at position `at` of a message and returns their size. */
  method FillAddrPort(msg: array<byte>, at: nat, a: SockAddr) returns (n: nat)
    requires WellFormed(a) && at + |AddrPort(a)| <= msg.Length
    modifies msg
    ensures n == |AddrPort(a)| && n == (match a case V4(_, _) => 7 case V6(_, _) => 19 case OtherFamily => 0)
    ensures msg[..] == old(msg[..at]) + AddrPort(a) + old(msg[at + n..])
  {
    if a.OtherFamily? {
      return 0;
    }
    ghost var before := msg[..];
    CopyBytes(msg, at, [if a.V4? then ATYP_V4 else ATYP_V6]);
    CopyBytes(msg, at + 1, a.ip);
    CopyBytes(msg, at + 1 + |a.ip|, a.port);
    n := 1 + |a.ip| + |a.port|;
    Spliced(before, at, [if a.V4? then ATYP_V4 else ATYP_V6], a.ip, a.port);
  }

  ghost function Splice(s: seq<byte>, at: nat, bytes: seq<byte>): (t: seq<byte>)
    requires at + |bytes| <= |s|
    ensures |t| == |s|
  {
    s[..at] + bytes + s[at + |bytes|..]
  }

  /** Three copies next to each other are one. */
  lemma Spliced(s: seq<byte>, at: nat, a: seq<byte>, b: seq<byte>, c: seq<byte>)
    requires at + |a| + |b| + |c| <= |s|
    ensures Splice(Splice(Splice(s, at, a), at + |a|, b), at + |a| + |b|, c) == Splice(s, at, a + b + c)
  {
  }

  /** The byte order conversions. */
  function Htons(p: u16): (b: seq<byte>)
    ensures |b| == 2
  {
    [(p / 256) as byte, (p % 256) as byte]
  }

  function Ntohs(b: seq<byte>): (p: u16)
    requires |b| == 2
    ensures Htons(p) == b
  {
    (b[0] as int * 256 + b[1] as int) as u16
  }

  /** A port survives both conversions, and the higher byte comes first. */
  lemma PortRoundTrip(p: u16)
    ensures Ntohs(Htons(p)) == p
    ensures Htons(p)[0] as int * 256 + Htons(p)[1] as int == p as int
  {
  }
}
