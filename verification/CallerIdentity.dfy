/** Client ids of callers: issuer and subject, escaped so that they cannot be confused. */
module CallerIdentity {

  /** A UTF-16 code unit. */
  newtype Unit = x: int | 0 <= x < 0x1_0000

  const SLASH: Unit := '/' as Unit
  const UNDERSCORE: Unit := '_' as Unit

  datatype Caller = Caller(issuer: seq<Unit>, subject: seq<Unit>)

  predicate Between(c: Unit, a: char, b: char) {
    a as int <= c as int <= b as int
  }

  /** Letters, digits, hyphen and period. */
  predicate IsSafe(c: Unit) {
    Between(c, 'a', 'z') || Between(c, 'A', 'Z') || Between(c, '0', '9') || c == '-' as Unit || c == '.' as Unit
  }

  function HexDigit(d: int): (c: Unit)
    requires 0 <= d < 16
    ensures Value(c) == d && IsSafe(c)
  {
    if d < 10 then ('0' as int + d) as Unit else ('a' as int + d - 10) as Unit
  }

  function Value(c: Unit): (d: int)
    ensures 0 <= d < 16
  {
    if Between(c, '0', '9') then c as int - '0' as int
    else if Between(c, 'a', 'f') then c as int - 'a' as int + 10
    else 0
  }

  function EscapeUnit(c: Unit): (s: seq<Unit>) {
    if IsSafe(c) then [c]
    else
      var n := c as int;
      [UNDERSCORE, HexDigit(n / 4096), HexDigit(n / 256 % 16), HexDigit(n / 16 % 16), HexDigit(n % 16)]
  }

  ghost function Escape(s: seq<Unit>): (t: seq<Unit>) {
    if s == [] then [] else EscapeUnit(s[0]) + Escape(s[1..])
  }

  lemma {:induction false} EscapeSnoc(s: seq<Unit>, c: Unit)
    ensures Escape(s + [c]) == Escape(s) + EscapeUnit(c)
  {
    if s != [] {
      EscapeSnoc(s[1..], c);
      assert (s + [c])[1..] == s[1..] + [c];
    }
  }

  method EscapeAll(s: seq<Unit>) returns (sb: seq<Unit>)
    ensures sb == Escape(s)
  {
    sb := [];
    for i := 0 to |s|
      invariant sb == Escape(s[..i])
    {
      EscapeSnoc(s[..i], s[i]);
      assert s[..i + 1] == s[..i] + [s[i]];
      sb := sb + EscapeUnit(s[i]);
    }
    assert s[..|s|] == s;
  }

  method GetClientId(c: Caller) returns (id: seq<Unit>)
    ensures id == ClientId(c)
  {
    var issuer := EscapeAll(c.issuer);
    var subject := EscapeAll(c.subject);
    id := issuer + [SLASH] + subject;
  }

  ghost function ClientId(c: Caller): (id: seq<Unit>) {
    Escape(c.issuer) + [SLASH] + Escape(c.subject)
  }

  /** The way back. */
  function Unescape(t: seq<Unit>): (s: seq<Unit>) {
    if t == [] then []
    else if t[0] == UNDERSCORE && |t| >= 5 then
      [(Value(t[1]) * 4096 + Value(t[2]) * 256 + Value(t[3]) * 16 + Value(t[4])) as Unit] + Unescape(t[5..])
    else [t[0]] + Unescape(t[1..])
  }

  lemma UnitRoundTrip(c: Unit, rest: seq<Unit>)
    ensures Unescape(EscapeUnit(c) + rest) == [c] + Unescape(rest)
  {
    var t := EscapeUnit(c) + rest;
    if IsSafe(c) {
      assert t[1..] == rest;
    } else {
      assert t[5..] == rest;
      HexSum(c as int);
    }
  }

  lemma HexSum(n: nat)
    ensures n / 4096 * 4096 + n / 256 % 16 * 256 + n / 16 % 16 * 16 + n % 16 == n
  {
    Nibble(n, 1);
    Nibble(n, 16);
    Nibble(n, 256);
  }

  lemma Nibble(n: nat, k: nat)
    requires k == 1 || k == 16 || k == 256
    ensures n / k == n / (k * 16) * 16 + n / k % 16
  {
    assert n / k / 16 == n / (k * 16);
  }

  /** Every string can be recovered from its escaped form. */
  lemma {:induction false} RoundTrip(s: seq<Unit>)
    ensures Unescape(Escape(s)) == s
  {
    if s != [] {
      RoundTrip(s[1..]);
      UnitRoundTrip(s[0], Escape(s[1..]));
    }
  }

  /** The codes of letters, digits, the hyphen and the period in ASCII. */
  ghost predicate IsPlain(c: Unit) {
    97 <= c <= 122 || 65 <= c <= 90 || 48 <= c <= 57 || c == 45 || c == 46
  }

  /** The safe units are exactly those. */
  lemma SafeExactly(c: Unit)
    ensures IsSafe(c) <==> IsPlain(c)
  {
  }

  /** A string of plain units escapes to itself. */
  lemma {:induction false} PlainStays(s: seq<Unit>)
    requires forall i :: 0 <= i < |s| ==> IsPlain(s[i])
    ensures Escape(s) == s
  {
    hide IsPlain, IsSafe;
    if s != [] {
      PlainStays(s[1..]);
      SafeExactly(s[0]);
    }
  }

  /** The hexadecimal digits in lower case. */
  const HEX: string := "0123456789abcdef"

  lemma HexDigits(d: int)
    requires 0 <= d < 16
    ensures HexDigit(d) as int == HEX[d] as int
  {
  }

  /** Any other unit becomes an underscore and the four digits of its value. */
  lemma OtherEscaped(c: Unit)
    requires !IsPlain(c)
    ensures var t := EscapeUnit(c);
            && |t| == 5 && t[0] == UNDERSCORE
            && exists a, b, d, e ::
                 && 0 <= a < 16 && 0 <= b < 16 && 0 <= d < 16 && 0 <= e < 16
                 && a * 4096 + b * 256 + d * 16 + e == c as int
                 && t[1] as int == HEX[a] as int && t[2] as int == HEX[b] as int
                 && t[3] as int == HEX[d] as int && t[4] as int == HEX[e] as int
  {
    hide IsPlain, IsSafe, HexDigit;
    SafeExactly(c);
    var n := c as int;
    var a, b, d, e := n / 4096, n / 256 % 16, n / 16 % 16, n % 16;
    HexDigits(a);
    HexDigits(b);
    HexDigits(d);
    HexDigits(e);
    HexSum(n);
  }

  lemma {:induction false} NoSlash(s: seq<Unit>)
    ensures SLASH !in Escape(s)
  {
    if s != [] {
      NoSlash(s[1..]);
    }
  }

  lemma SplitAtSlash(a: seq<Unit>, b: seq<Unit>, c: seq<Unit>, d: seq<Unit>)
    requires SLASH !in a && SLASH !in c && a + [SLASH] + b == c + [SLASH] + d
    ensures a == c && b == d
  {
    var s, t := a + [SLASH] + b, c + [SLASH] + d;
    assert s[|a|] == SLASH && t[|c|] == SLASH;
    assert forall i :: 0 <= i < |a| ==> s[i] == a[i];
    assert forall i :: 0 <= i < |c| ==> t[i] == c[i];
    assert |a| == |c|;
    assert s[..|a|] == a && t[..|c|] == c && s[|a| + 1..] == b && t[|c| + 1..] == d;
  }

  /** Two callers have the same client id exactly when issuer and subject are the same. */
  lemma SameIdSameCaller(a: Caller, b: Caller)
    ensures ClientId(a) == ClientId(b) <==> a == b
  {
    if ClientId(a) == ClientId(b) {
      NoSlash(a.issuer);
      NoSlash(b.issuer);
      SplitAtSlash(Escape(a.issuer), Escape(a.subject), Escape(b.issuer), Escape(b.subject));
      RoundTrip(a.issuer);
      RoundTrip(b.issuer);
      RoundTrip(a.subject);
      RoundTrip(b.subject);
    }
  }
}
