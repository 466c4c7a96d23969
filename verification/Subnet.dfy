/** The /24 and /64 aggregation keys of the bandwidth limiter. */
module Subnet {
  import opened Bytes
  import Text
  import opened TupleKey

  /** A parsed IP address; an IPv4-mapped IPv6 address parses as IPv4. */
  datatype Address = V4(b: seq<u8>) | V6(w: seq<u8>)

  /** The address parser and the IPv6 formatter belong to the Go library: any pair of functions will do. */
  datatype Library = Library(parse: string -> Option<Address>, render6: seq<u8> -> string)

  predicate WellFormed(a: Address) {
    match a
    case V4(b) => |b| == 4
    case V6(w) => |w| == 16
  }

  predicate IsSpace(c: char) {
    c == ' ' || '\t' <= c <= '\r'
  }

  function TrimSpace(s: string): (r: string)
    decreases |s|
  {
    if s == [] then []
    else if IsSpace(s[0]) then TrimSpace(s[1..])
    else if IsSpace(s[|s| - 1]) then TrimSpace(s[..|s| - 1])
    else s
  }

  /** The address text without surrounding space, brackets or zone. */
  function Clean(ip: string): (r: string) {
    var t := TrimSpace(ip);
    var close := Text.IndexOf(t, ']');
    var u := if t != [] && t[0] == '[' && close.Some? then t[1..close.value] else t;
    var pct := Text.IndexOf(u, '%');
    if pct.Some? then u[..pct.value] else u
  }

  function Dotted(b: seq<u8>): (s: string)
    requires |b| == 4
  {
    Decimal(b[0]) + "." + Decimal(b[1]) + "." + Decimal(b[2]) + "." + Decimal(b[3])
  }

  /** The aggregation key of an address text, empty when it does not parse. */
  function SubnetPrefix(lib: Library, ip: string): (key: string)
    ensures key == "" || '/' in key
  {
    match lib.parse(Clean(ip))
    case None => ""
    case Some(a) =>
      if !WellFormed(a) then ""
      else
        match a
        case V4(b) => var s := Dotted(b[..3] + [0]) + "/24"; assert s[|s| - 3] == '/'; s
        case V6(w) =>
          var s := lib.render6(w[..8] + seq(8, i => 0)) + "/64"; assert s[|s| - 3] == '/'; s
  }

  lemma DottedInjective(a: seq<u8>, b: seq<u8>)
    requires |a| == 4 && |b| == 4 && Dotted(a) == Dotted(b)
    ensures a == b
  {
    hide Decimal;
    var a1, b1 := Decimal(a[0]) + "." + Decimal(a[1]), Decimal(b[0]) + "." + Decimal(b[1]);
    var a2, b2 := a1 + "." + Decimal(a[2]), b1 + "." + Decimal(b[2]);
    CutLast(a2, Decimal(a[3]), b2, Decimal(b[3]), '.');
    CutLast(a1, Decimal(a[2]), b1, Decimal(b[2]), '.');
    CutLast(Decimal(a[0]), Decimal(a[1]), Decimal(b[0]), Decimal(b[1]), '.');
    DecimalInjective(a[0], b[0]);
    DecimalInjective(a[1], b[1]);
    DecimalInjective(a[2], b[2]);
    DecimalInjective(a[3], b[3]);
  }

  /** The first three bytes of an IPv4 address, or the first eight of an IPv6 one. */
  function Network(a: Address): (n: seq<u8>)
    requires WellFormed(a)
  {
    match a
    case V4(b) => b[..3]
    case V6(w) => w[..8]
  }

  /** Two addresses share a bucket exactly when they are of one family and in one /24 or /64. */
  lemma SameBucketIff(lib: Library, ip: string, jp: string, a: Address, b: Address)
    requires lib.parse(Clean(ip)) == Some(a) && lib.parse(Clean(jp)) == Some(b) && WellFormed(a) && WellFormed(b)
    requires forall v, w :: lib.render6(v) == lib.render6(w) ==> v == w
    ensures SubnetPrefix(lib, ip) == SubnetPrefix(lib, jp) <==> a.V4? == b.V4? && Network(a) == Network(b)
  {
    hide Clean, Dotted;
    var k, l := SubnetPrefix(lib, ip), SubnetPrefix(lib, jp);
    var pa := if a.V4? then Dotted(a.b[..3] + [0]) else lib.render6(a.w[..8] + seq(8, i => 0));
    var pb := if b.V4? then Dotted(b.b[..3] + [0]) else lib.render6(b.w[..8] + seq(8, i => 0));
    var sa := if a.V4? then "/24" else "/64";
    var sb := if b.V4? then "/24" else "/64";
    assert k == pa + sa && l == pb + sb;
    if k == l {
      CutFixed(pa, sa, pb, sb);
      assert sa[1] == sb[1];
      if a.V4? {
        DottedInjective(a.b[..3] + [0], b.b[..3] + [0]);
        assert a.b[..3] == (a.b[..3] + [0])[..3] && b.b[..3] == (b.b[..3] + [0])[..3];
      } else {
        var z := seq(8, i => 0);
        assert a.w[..8] == (a.w[..8] + z)[..8] && b.w[..8] == (b.w[..8] + z)[..8];
      }
    }
  }

  /** A character that cleaning leaves alone. */
  predicate Plain(c: char) {
    !IsSpace(c) && c != '[' && c != '%'
  }

  lemma CleanKeeps(s: string)
    requires forall c :: c in s ==> Plain(c)
    ensures Clean(s) == s
  {
    assert s != [] ==> Plain(s[0]) && Plain(s[|s| - 1]);
    assert TrimSpace(s) == s;
    assert !Plain('%');
    assert '%' !in s;
    assert Text.IndexOf(s, '%') == None;
  }

  lemma NothingTrimmed(t: string)
    requires t != "" && !IsSpace(t[0]) && !IsSpace(t[|t| - 1])
    ensures TrimSpace(t) == t
  {}

  predicate AllPlain(s: string) {
    forall c :: c in s ==> Plain(c)
  }

  lemma PlainEnds(s: string)
    requires AllPlain(s)
    ensures '%' !in s && (s != "" ==> Plain(s[0]) && Plain(s[|s| - 1]))
  {
    assert !Plain('%');
  }

  lemma ZoneIsCut(s: string, zone: string)
    requires s != "" && AllPlain(s) && AllPlain(zone)
    ensures Clean(s + "%" + zone) == s
  {
    var t := s + ['%'] + zone;
    PlainEnds(s);
    PlainEnds(zone);
    hide AllPlain;
    assert t[0] == s[0] && t[|t| - 1] == if zone == "" then '%' else zone[|zone| - 1];
    NothingTrimmed(t);
    Text.IndexOfCut(s, '%', zone);
    hide TrimSpace;
  }

  lemma BracketsAreCut(s: string, rest: string)
    requires ']' !in s && AllPlain(s) && AllPlain(rest)
    ensures Clean("[" + s + "]" + rest) == s
  {
    var t := "[" + s + [']'] + rest;
    PlainEnds(s);
    PlainEnds(rest);
    hide AllPlain;
    assert t[0] == '[' && t[|t| - 1] == if rest == "" then ']' else rest[|rest| - 1];
    NothingTrimmed(t);
    Text.IndexOfCut("[" + s, ']', rest);
    assert t[1..|s| + 1] == s;
    Text.IndexOfCut(s, '%', "");
    hide TrimSpace;
  }

  lemma SpaceIsCut(s: string)
    requires AllPlain(s)
    ensures Clean(" " + s + " ") == Clean(s)
  {
    PlainEnds(s);
    hide AllPlain;
    var t := s + " ";
    assert " " + s + " " == " " + t && (" " + t)[1..] == t;
    assert TrimSpace(" " + t) == TrimSpace(t);
    if s == "" {
      assert t[1..] == "";
    } else {
      assert t[0] == s[0] && t[|t| - 1] == ' ' && t[..|t| - 1] == s;
      assert TrimSpace(t) == TrimSpace(s);
    }
    hide TrimSpace;
  }

  /** An address text is cleaned of a zone, of brackets with whatever follows them, and of space around it. */
  lemma CleanCuts(s: string, rest: string)
    requires s != "" && ']' !in s && AllPlain(s) && AllPlain(rest)
    ensures Clean(s) == s && Clean(s + "%" + rest) == s && Clean("[" + s + "]" + rest) == s
    ensures Clean(" " + s + " ") == s
  {
    hide Clean;
    CleanKeeps(s);
    ZoneIsCut(s, rest);
    BracketsAreCut(s, rest);
    SpaceIsCut(s);
  }

  /** The key of a client with an IPv4 address: its first three numbers, a zero, and the prefix length. */
  lemma KeyText(lib: Library, ip: string, b: seq<u8>)
    requires lib.parse(Clean(ip)) == Some(V4(b)) && |b| == 4
    ensures SubnetPrefix(lib, ip) == Decimal(b[0]) + "." + Decimal(b[1]) + "." + Decimal(b[2]) + ".0/24"
  {
    hide Clean;
    var front := Decimal(b[0]) + "." + Decimal(b[1]) + "." + Decimal(b[2]);
    assert Decimal(0) == "0";
    assert front + "." + "0" + "/24" == front + ".0/24";
  }

  lemma DottedIsPlain(b: seq<u8>)
    requires |b| == 4
    ensures forall c :: c in Dotted(b) ==> Plain(c)
  {
    forall c | c in Dotted(b) ensures Plain(c) {
      hide Decimal;
      assert c == '.' || exists n: nat :: c in Decimal(n);
      if c != '.' {
        var n: nat :| c in Decimal(n);
      }
    }
  }

  /** The parser refuses texts with a slash, and IPv6 texts are made of plain characters. */
  ghost predicate PlainText(lib: Library) {
    && (forall s :: '/' in s ==> lib.parse(s) == None)
    && (forall w :: forall c :: c in lib.render6(w) ==> Plain(c))
  }

  /** A subnet key is not an address. */
  lemma PrefixHasNoPrefix(lib: Library, ip: string)
    requires PlainText(lib)
    ensures SubnetPrefix(lib, ip) == "" || SubnetPrefix(lib, SubnetPrefix(lib, ip)) == ""
  {
    hide Clean, Dotted;
    var key := SubnetPrefix(lib, ip);
    if key != "" {
      var a := lib.parse(Clean(ip)).value;
      if a.V4? {
        DottedIsPlain(a.b[..3] + [0]);
      }
      assert forall c :: c in key ==> Plain(c);
      CleanKeeps(key);
    }
  }
}
