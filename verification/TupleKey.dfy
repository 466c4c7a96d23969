/** The canonical text key of a NAT flow, and why it identifies the flow. */
module TupleKey {
  import opened Bytes
  import opened Packet

  /** The six fields that identify a flow; the session name is arbitrary text. */
  datatype Flow = Flow(session: string, srcIP: IP, srcPort: u16, dstIP: IP, dstPort: u16, proto: u8)

  function Digit(d: nat): (c: char)
    requires d < 10
    ensures '0' <= c <= '9'
  {
    '0' + d as char
  }

  function HexDigit(d: nat): (c: char)
    requires d < 16
  {
    if d < 10 then Digit(d) else 'a' + (d - 10) as char
  }

  /** Decimal rendering (%d). */
  function Decimal(n: nat): (s: string)
    ensures |s| > 0 && forall k :: 0 <= k < |s| ==> '0' <= s[k] <= '9'
  {
    if n < 10 then [Digit(n)] else Decimal(n / 10) + [Digit(n % 10)]
  }

  function Hex2(b: u8): (s: string)
    ensures |s| == 2
  {
    [HexDigit(b / 16), HexDigit(b % 16)]
  }

  function Hex8(ip: IP): (s: string)
    ensures |s| == 8
  {
    Hex2(ip[0]) + Hex2(ip[1]) + Hex2(ip[2]) + Hex2(ip[3])
  }

  /** A rendered key, compared as a whole. */
  datatype KeyText = KeyText(text: string)

  /** "%s/%02x%02x%02x%02x:%d>%02x%02x%02x%02x:%d/%d" */
  function Key(f: Flow): (k: KeyText)
  {
    KeyText(f.session + "/" + Hex8(f.srcIP) + ":" + Decimal(f.srcPort) + ">" + Hex8(f.dstIP) + ":" + Decimal(f.dstPort)
            + "/" + Decimal(f.proto))
  }

  lemma {:induction false} DecimalInjective(m: nat, n: nat)
    requires Decimal(m) == Decimal(n)
    ensures m == n
  {
    var s, t := Decimal(m), Decimal(n);
    assert s[|s| - 1] == Digit(m % 10) && t[|t| - 1] == Digit(n % 10);
    if m >= 10 && n >= 10 {
      assert s[..|s| - 1] == Decimal(m / 10) && t[..|t| - 1] == Decimal(n / 10);
      DecimalInjective(m / 10, n / 10);
    }
  }

  lemma Hex2Injective(a: u8, b: u8)
    requires Hex2(a) == Hex2(b)
    ensures a == b
  {
    assert HexDigit(a / 16) == Hex2(a)[0] == HexDigit(b / 16);
    assert HexDigit(a % 16) == Hex2(a)[1] == HexDigit(b % 16);
  }

  lemma Hex8Injective(a: IP, b: IP)
    requires Hex8(a) == Hex8(b)
    ensures a == b
  {
    hide Hex2;
    var s, t := Hex8(a), Hex8(b);
    forall k | 0 <= k < 4 ensures a[k] == b[k] {
      assert s[2 * k..2 * k + 2] == Hex2(a[k]) && t[2 * k..2 * k + 2] == Hex2(b[k]);
      Hex2Injective(a[k], b[k]);
    }
  }

  /** Cutting at the last occurrence of a character is unambiguous. */
  lemma CutLast(a: string, b: string, a': string, b': string, c: char)
    requires a + [c] + b == a' + [c] + b' && c !in b && c !in b'
    ensures a == a' && b == b'
  {
    var s := a + [c] + b;
    assert s[|a|] == c && s[|a'|] == c;
    assert forall k :: |a| < k < |s| ==> s[k] == b[k - |a| - 1] && s[k] in b;
    assert forall k :: |a'| < k < |s| ==> s[k] == b'[k - |a'| - 1] && s[k] in b';
    assert a == s[..|a|] && a' == s[..|a|];
    assert b == s[|a| + 1..] && b' == s[|a| + 1..];
  }

  /** Cutting off a suffix of known length is unambiguous. */
  lemma CutFixed(a: string, b: string, a': string, b': string)
    requires a + b == a' + b' && |b| == |b'|
    ensures a == a' && b == b'
  {
    var s := a + b;
    assert a == s[..|a|] && a' == s[..|a|];
    assert b == s[|a|..] && b' == s[|a|..];
  }

  /** Two flows share a key only when all six fields are equal, whatever the session names contain. */
  lemma KeyInjective(f: Flow, g: Flow)
    requires Key(f) == Key(g)
    ensures f == g
  {
    hide Decimal, Hex8;
    var f1 := f.session + "/" + Hex8(f.srcIP);
    var g1 := g.session + "/" + Hex8(g.srcIP);
    var f2 := f1 + ":" + Decimal(f.srcPort);
    var g2 := g1 + ":" + Decimal(g.srcPort);
    var f3 := f2 + ">" + Hex8(f.dstIP);
    var g3 := g2 + ">" + Hex8(g.dstIP);
    var f4 := f3 + ":" + Decimal(f.dstPort);
    var g4 := g3 + ":" + Decimal(g.dstPort);
    CutLast(f4, Decimal(f.proto), g4, Decimal(g.proto), '/');
    CutLast(f3, Decimal(f.dstPort), g3, Decimal(g.dstPort), ':');
    CutFixed(f2 + ">", Hex8(f.dstIP), g2 + ">", Hex8(g.dstIP));
    CutFixed(f2, ">", g2, ">");
    CutLast(f1, Decimal(f.srcPort), g1, Decimal(g.srcPort), ':');
    CutFixed(f.session + "/", Hex8(f.srcIP), g.session + "/", Hex8(g.srcIP));
    CutFixed(f.session, "/", g.session, "/");
    DecimalInjective(f.proto, g.proto);
    DecimalInjective(f.dstPort, g.dstPort);
    DecimalInjective(f.srcPort, g.srcPort);
    Hex8Injective(f.srcIP, g.srcIP);
    Hex8Injective(f.dstIP, g.dstIP);
  }

  lemma KeysDiffer(f: Flow, g: Flow)
    requires f != g
    ensures Key(f) != Key(g)
  {
    hide Key;
    if Key(f) == Key(g) {
      KeyInjective(f, g);
    }
  }
}
