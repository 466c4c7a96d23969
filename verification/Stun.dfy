/** STUN Binding responses (RFC 5389): walking attributes and decoding XOR-MAPPED-ADDRESS. */
module Stun {

  import opened Bytes

  const HEADER_SIZE: nat := 20
  const COOKIE: seq<u8> := [0x21, 0x12, 0xA4, 0x42]
  const XOR_MAPPED_ADDRESS: nat := 0x0020
  const FAMILY_IPV4: u8 := 1
  const FAMILY_IPV6: u8 := 2

  datatype Outcome = Found(ip: seq<u8>) | ResponseTooShort | NotFound | ValueTooShort | UnknownFamily

  function Pow2(k: nat): (p: nat)
    ensures p > 0
  {
    if k == 0 then 1 else 2 * Pow2(k - 1)
  }

  /** Exclusive or of the low `k` bits. */
  function XorBits(a: nat, b: nat, k: nat): (r: nat)
    ensures r < Pow2(k)
  {
    if k == 0 then 0 else 2 * XorBits(a / 2, b / 2, k - 1) + if a % 2 == b % 2 then 0 else 1
  }

  lemma {:induction false} XorBitsTwice(a: nat, b: nat, k: nat)
    requires a < Pow2(k)
    ensures XorBits(XorBits(a, b, k), b, k) == a
  {
    if k > 0 {
      var r := XorBits(a, b, k);
      assert r / 2 == XorBits(a / 2, b / 2, k - 1);
      XorBitsTwice(a / 2, b / 2, k - 1);
    }
  }

  lemma EightBits()
    ensures Pow2(8) == 256
  {
    assert Pow2(2) == 4;
    assert Pow2(4) == 16;
    assert Pow2(6) == 64;
  }

  /** Exclusive or of two bytes. */
  function Xor(a: u8, b: u8): (r: u8) {
    EightBits();
    XorBits(a, b, 8)
  }

  /** Bit `i` of `a`, counted from the lowest. */
  predicate Bit(a: nat, i: nat) {
    if i == 0 then a % 2 == 1 else Bit(a / 2, i - 1)
  }

  lemma {:induction false} XorBitsBit(a: nat, b: nat, k: nat, i: nat)
    requires i < k
    ensures Bit(XorBits(a, b, k), i) <==> (Bit(a, i) != Bit(b, i))
  {
    var r := XorBits(a, b, k);
    assert r / 2 == XorBits(a / 2, b / 2, k - 1);
    if i > 0 {
      XorBitsBit(a / 2, b / 2, k - 1, i - 1);
    }
  }

  /** Each bit of the exclusive or is set when exactly one of the two bits is. */
  lemma XorBitwise(a: u8, b: u8, i: nat)
    requires i < 8
    ensures Bit(Xor(a, b), i) <==> (Bit(a, i) != Bit(b, i))
  {
    XorBitsBit(a, b, 8, i);
  }

  lemma {:induction false} XorBitsZero(a: nat, k: nat)
    requires a < Pow2(k)
    ensures XorBits(a, 0, k) == a && XorBits(0, a, k) == a && XorBits(a, a, k) == 0
  {
    if k > 0 {
      XorBitsZero(a / 2, k - 1);
    }
  }

  lemma XorZero(a: u8)
    ensures Xor(a, 0) == a && Xor(0, a) == a && Xor(a, a) == 0
  {
    EightBits();
    XorBitsZero(a, 8);
  }

  /** Byte-wise exclusive or with the front of `key`. */
  function XorWith(data: seq<u8>, key: seq<u8>): (r: seq<u8>)
    requires |data| <= |key|
    ensures |r| == |data| && forall i :: 0 <= i < |data| ==> r[i] == Xor(data[i], key[i])
  {
    seq(|data|, i requires 0 <= i < |data| => Xor(data[i], key[i]))
  }

  lemma XorTwice(data: seq<u8>, key: seq<u8>)
    requires |data| <= |key|
    ensures XorWith(XorWith(data, key), key) == data
  {
    forall i | 0 <= i < |data| ensures Xor(Xor(data[i], key[i]), key[i]) == data[i] { XorCancels(data[i], key[i]); }
  }

  lemma XorCancels(a: u8, b: u8)
    ensures Xor(Xor(a, b), b) == a
  {
    EightBits();
    XorBitsTwice(a, b, 8);
  }

  /** The address in an XOR-MAPPED-ADDRESS value (section 15.2 of RFC 5389). */
  function DecodeValue(data: seq<u8>, transactionID: seq<u8>): (r: Outcome)
    requires |transactionID| == 12
  {
    if |data| < 4 then ValueTooShort
    else if data[1] == FAMILY_IPV4 then
      if |data| < 8 then ValueTooShort else Found(XorWith(data[4..8], COOKIE))
    else if data[1] == FAMILY_IPV6 then
      if |data| < 20 then ValueTooShort else Found(XorWith(data[4..20], COOKIE + transactionID))
    else UnknownFamily
  }

  function Padding(len: nat): (p: nat)
    ensures p < 4 && (len + p) % 4 == 0
  {
    if len % 4 != 0 then 4 - len % 4 else 0
  }

  /** The attribute walk from `offset` up to `end`. */
  function Walk(r: seq<u8>, offset: nat, end: nat): (o: Outcome)
    requires HEADER_SIZE <= offset && end <= |r| && HEADER_SIZE <= |r|
    decreases end - offset
  {
    if offset + 4 > end then NotFound
    else
      var kind, len := U16At(r, offset), U16At(r, offset + 2);
      if offset + 4 + len > end then NotFound
      else if kind == XOR_MAPPED_ADDRESS then DecodeValue(r[offset + 4..offset + 4 + len], r[8..20])
      else Walk(r, offset + 4 + len + Padding(len), end)
  }

  /** The declared attribute area, cut to what was received. */
  function AttributesEnd(r: seq<u8>): (end: nat)
    requires HEADER_SIZE <= |r|
    ensures HEADER_SIZE <= end <= |r|
  {
    if |r| < HEADER_SIZE + U16At(r, 2) then |r| else HEADER_SIZE + U16At(r, 2)
  }

  function Parse(r: seq<u8>): (o: Outcome) {
    if |r| < HEADER_SIZE then ResponseTooShort else Walk(r, HEADER_SIZE, AttributesEnd(r))
  }

  // ---------- as it runs ----------

  method DecodeXORMappedAddress(data: seq<u8>, transactionID: seq<u8>) returns (o: Outcome)
    requires |transactionID| == 12
    ensures o == DecodeValue(data, transactionID)
    ensures o == ValueTooShort <==> |data| < 4 || (data[1] == 1 && |data| < 8) || (data[1] == 2 && |data| < 20)
    ensures o == UnknownFamily <==> |data| >= 4 && data[1] != 1 && data[1] != 2
    ensures o.Found? ==> |o.ip| == if data[1] == 1 then 4 else 16
  {
    if |data| < 4 {
      return ValueTooShort;
    }
    if data[1] == FAMILY_IPV4 {
      if |data| < 8 {
        return ValueTooShort;
      }
      var ip := XorLoop(data, 4, COOKIE);
      return Found(ip);
    }
    if data[1] == FAMILY_IPV6 {
      if |data| < 20 {
        return ValueTooShort;
      }
      var ip := XorLoop(data, 16, COOKIE + transactionID);
      return Found(ip);
    }
    o := UnknownFamily;
  }

  method XorLoop(data: seq<u8>, n: nat, key: seq<u8>) returns (ip: seq<u8>)
    requires |key| == n && 4 + n <= |data|
    ensures ip == XorWith(data[4..4 + n], key)
  {
    var buf := new u8[n](_ => 0);
    var i := 0;
    while i < n
      invariant 0 <= i <= n && forall k :: 0 <= k < i ==> buf[k] == Xor(data[4 + k], key[k])
    {
      buf[i] := Xor(data[4 + i], key[i]);
      i := i + 1;
    }
    ip := buf[..];
  }

  /** Stays in bounds and terminates on any bytes. */
  method ParseXORMappedAddress(response: seq<u8>) returns (o: Outcome)
    ensures o == Parse(response)
  {
    hide U16At, DecodeValue;
    if |response| < HEADER_SIZE {
      return ResponseTooShort;
    }
    var attrLen := U16At(response, 2);
    if |response| < HEADER_SIZE + attrLen {
      attrLen := |response| - HEADER_SIZE;
    }
    var offset, end := HEADER_SIZE, HEADER_SIZE + attrLen;
    while offset + 4 <= end
      invariant HEADER_SIZE <= offset && end == AttributesEnd(response)
      invariant Walk(response, offset, end) == Parse(response)
      decreases end - offset
    {
      var kind, len := U16At(response, offset), U16At(response, offset + 2);
      offset := offset + 4;
      if offset + len > end {
        break;
      }
      if kind == XOR_MAPPED_ADDRESS {
        o := DecodeXORMappedAddress(response[offset..offset + len], response[8..20]);
        return;
      }
      offset := offset + len;
      var pad := len % 4;
      if pad != 0 {
        offset := offset + 4 - pad;
      }
    }
    o := NotFound;
  }

  // ---------- encoding, and the round trip ----------

  datatype Attribute = Attribute(kind: nat, value: seq<u8>)

  predicate Encodable(a: Attribute) {
    a.kind < 0x1_0000 && |a.value| < 0x1_0000
  }

  function Encode(a: Attribute): (b: seq<u8>)
    requires Encodable(a)
    ensures |b| == 4 + |a.value| + Padding(|a.value|)
  {
    BE16(a.kind) + BE16(|a.value|) + a.value + seq(Padding(|a.value|), _ => 0)
  }

  function EncodeAll(attrs: seq<Attribute>): (b: seq<u8>)
    requires forall a :: a in attrs ==> Encodable(a)
  {
    if attrs == [] then [] else Encode(attrs[0]) + EncodeAll(attrs[1..])
  }

  /** The outcome the attributes call for: that of the first XOR-MAPPED-ADDRESS. */
  function FirstAddress(attrs: seq<Attribute>, transactionID: seq<u8>): (o: Outcome)
    requires |transactionID| == 12
  {
    if attrs == [] then NotFound
    else if attrs[0].kind == XOR_MAPPED_ADDRESS then DecodeValue(attrs[0].value, transactionID)
    else FirstAddress(attrs[1..], transactionID)
  }

  /** Walking over one encoded attribute. */
  lemma WalkOne(r: seq<u8>, offset: nat, end: nat, a: Attribute)
    requires HEADER_SIZE <= offset && end <= |r| && HEADER_SIZE <= |r| && Encodable(a)
    requires offset + |Encode(a)| <= end && r[offset..offset + |Encode(a)|] == Encode(a)
    ensures Walk(r, offset, end) ==
      if a.kind == XOR_MAPPED_ADDRESS then DecodeValue(a.value, r[8..20]) else Walk(r, offset + |Encode(a)|, end)
  {
    hide DecodeValue, Hi, Lo, Word;
    var e := Encode(a);
    var n := |a.value|;
    assert forall k :: 0 <= k < |e| ==> r[offset + k] == e[k] by {
      assert forall k :: 0 <= k < |e| ==> r[offset..offset + |e|][k] == e[k];
    }
    assert e[0] == BE16(a.kind)[0] && e[1] == BE16(a.kind)[1] && e[2] == BE16(n)[0] && e[3] == BE16(n)[1];
    assert r[offset + 1] == e[1] && r[offset + 2] == e[2] && r[offset + 3] == e[3];
    ReadBack16(r, offset, a.kind);
    ReadBack16(r, offset + 2, n);
    assert e[4..4 + n] == a.value;
    assert r[offset + 4..offset + 4 + n] == r[offset..offset + |e|][4..4 + n];
  }

  lemma SplitFront(r: seq<u8>, offset: nat, end: nat, e: seq<u8>, rest: seq<u8>)
    requires offset <= end <= |r| && r[offset..end] == e + rest
    ensures r[offset..offset + |e|] == e && r[offset + |e|..end] == rest
  {
    var s := r[offset..end];
    assert s[..|e|] == e && s[|e|..] == rest;
    assert r[offset..offset + |e|] == s[..|e|] && r[offset + |e|..end] == s[|e|..];
  }

  lemma WalkNothing(r: seq<u8>, end: nat)
    requires HEADER_SIZE <= end <= |r|
    ensures Walk(r, end, end) == NotFound
  {}

  lemma {:induction false} WalkAll(r: seq<u8>, offset: nat, end: nat, attrs: seq<Attribute>)
    requires HEADER_SIZE <= offset && end <= |r| && HEADER_SIZE <= |r| && forall a :: a in attrs ==> Encodable(a)
    requires offset + |EncodeAll(attrs)| == end && r[offset..end] == EncodeAll(attrs)
    ensures Walk(r, offset, end) == FirstAddress(attrs, r[8..20])
    decreases |attrs|
  {
    hide Encode, DecodeValue, Walk;
    if attrs == [] {
      WalkNothing(r, end);
    } else {
      var e := Encode(attrs[0]);
      SplitFront(r, offset, end, e, EncodeAll(attrs[1..]));
      WalkOne(r, offset, end, attrs[0]);
      if attrs[0].kind != XOR_MAPPED_ADDRESS {
        WalkAll(r, offset + |e|, end, attrs[1..]);
      }
    }
  }

  /**
   * Any response made of a header, padded attributes filling the declared length, and whatever follows decodes to
   * what its first XOR-MAPPED-ADDRESS attribute calls for.
   */
  lemma ParseEncoded(header: seq<u8>, attrs: seq<Attribute>, trailing: seq<u8>)
    requires |header| == HEADER_SIZE && (forall a :: a in attrs ==> Encodable(a))
    requires U16At(header, 2) == |EncodeAll(attrs)|
    ensures Parse(header + EncodeAll(attrs) + trailing) == FirstAddress(attrs, header[8..20])
  {
    hide Walk, EncodeAll, FirstAddress, Word;
    var body := EncodeAll(attrs);
    var r := header + body + trailing;
    assert U16At(r, 2) == U16At(header, 2);
    Layout(header, body, trailing);
    WalkAll(r, HEADER_SIZE, HEADER_SIZE + |body|, attrs);
  }

  /** The same when the response declares more than was received. */
  lemma CutResponse(header: seq<u8>, attrs: seq<Attribute>)
    requires |header| == HEADER_SIZE && (forall a :: a in attrs ==> Encodable(a))
    requires U16At(header, 2) >= |EncodeAll(attrs)|
    ensures Parse(header + EncodeAll(attrs)) == FirstAddress(attrs, header[8..20])
  {
    hide Walk, EncodeAll, FirstAddress, Word;
    var body := EncodeAll(attrs);
    var r := header + body;
    assert U16At(r, 2) == U16At(header, 2);
    Layout(header, body, []);
    assert header + body + [] == r;
    WalkAll(r, HEADER_SIZE, HEADER_SIZE + |body|, attrs);
  }

  lemma Layout(header: seq<u8>, body: seq<u8>, trailing: seq<u8>)
    requires |header| == HEADER_SIZE
    ensures var r := header + body + trailing;
      r[8..20] == header[8..20] && r[HEADER_SIZE..HEADER_SIZE + |body|] == body
  {}

  /** The value a server sends for an address: reserved byte, family, port, address under the mask. */
  function EncodeAddress(ip: seq<u8>, port: seq<u8>, transactionID: seq<u8>): (v: seq<u8>)
    requires (|ip| == 4 || |ip| == 16) && |port| == 2 && |transactionID| == 12
  {
    [0, if |ip| == 4 then FAMILY_IPV4 else FAMILY_IPV6] + port + XorWith(ip, COOKIE + transactionID)
  }

  /** Encoding then decoding an address is the identity, in both families. */
  lemma AddressRoundTrip(ip: seq<u8>, port: seq<u8>, transactionID: seq<u8>)
    requires (|ip| == 4 || |ip| == 16) && |port| == 2 && |transactionID| == 12
    ensures DecodeValue(EncodeAddress(ip, port, transactionID), transactionID) == Found(ip)
  {
    var key := COOKIE + transactionID;
    var v := EncodeAddress(ip, port, transactionID);
    assert v[4..4 + |ip|] == XorWith(ip, key);
    XorTwice(ip, key);
    assert |ip| == 4 ==> XorWith(XorWith(ip, key), COOKIE) == XorWith(XorWith(ip, key), key);
  }

  /** The whole exchange: the first mapped address comes back whatever other attributes surround it. */
  lemma MappedAddressComesBack(header: seq<u8>, before: seq<Attribute>, after: seq<Attribute>, trailing: seq<u8>,
                               ip: seq<u8>, port: seq<u8>)
    requires |header| == HEADER_SIZE && (|ip| == 4 || |ip| == 16) && |port| == 2
    requires forall a :: a in before ==> Encodable(a) && a.kind != XOR_MAPPED_ADDRESS
    requires forall a :: a in after ==> Encodable(a)
    requires var mapped := Attribute(XOR_MAPPED_ADDRESS, EncodeAddress(ip, port, header[8..20]));
      U16At(header, 2) == |EncodeAll(before + [mapped] + after)|
    ensures var mapped := Attribute(XOR_MAPPED_ADDRESS, EncodeAddress(ip, port, header[8..20]));
      Parse(header + EncodeAll(before + [mapped] + after) + trailing) == Found(ip)
  {
    hide Parse, EncodeAll, DecodeValue, U16At;
    var mapped := Attribute(XOR_MAPPED_ADDRESS, EncodeAddress(ip, port, header[8..20]));
    ParseEncoded(header, before + [mapped] + after, trailing);
    AddressRoundTrip(ip, port, header[8..20]);
    SkipOthers(before, mapped, after, header[8..20]);
  }

  lemma {:induction false} SkipOthers(before: seq<Attribute>, mapped: Attribute, after: seq<Attribute>,
                                      transactionID: seq<u8>)
    requires |transactionID| == 12 && mapped.kind == XOR_MAPPED_ADDRESS
    requires forall a :: a in before ==> a.kind != XOR_MAPPED_ADDRESS
    ensures FirstAddress(before + [mapped] + after, transactionID) == DecodeValue(mapped.value, transactionID)
  {
    hide DecodeValue;
    if before != [] {
      assert (before + [mapped] + after)[1..] == before[1..] + [mapped] + after;
      SkipOthers(before[1..], mapped, after, transactionID);
    }
  }

  lemma XorNibbles()
    ensures Xor(0xe1, 0x21) == 192 && Xor(0x12, 0x12) == 0 && Xor(0xa6, 0xA4) == 2 && Xor(0x43, 0x42) == 1
  {
    assert XorBits(0xe1 / 16, 0x21 / 16, 4) == 12;
    assert XorBits(0xa6 / 16, 0xA4 / 16, 4) == 0;
    assert XorBits(0x43 / 16, 0x42 / 16, 4) == 0;
    assert XorBits(0x12 / 16, 0x12 / 16, 4) == 0;
  }

  lemma OnlyAttribute(r: seq<u8>)
    requires |r| == 32 && r[2] == 0 && r[3] == 12 && r[20] == 0 && r[21] == 0x20 && r[22] == 0 && r[23] == 8
    ensures Parse(r) == DecodeValue(r[24..32], r[8..20])
  {
    hide DecodeValue;
  }

  lemma KnownValueV4(transactionID: seq<u8>)
    requires |transactionID| == 12
    ensures DecodeValue([0x00, 0x01, 0xa1, 0x47, 0xe1, 0x12, 0xa6, 0x43], transactionID) == Found([192, 0, 2, 1])
  {
    hide Xor;
    XorNibbles();
    var value := [0x00, 0x01, 0xa1, 0x47, 0xe1, 0x12, 0xa6, 0x43];
    assert XorWith(value[4..8], COOKIE) == [192, 0, 2, 1];
  }

  /** The success response of section 2.2 of RFC 5769 with only its mapped address: 192.0.2.1, port 32853. */
  lemma KnownResponseV4(transactionID: seq<u8>)
    requires |transactionID| == 12
    ensures Parse([0x01, 0x01, 0x00, 0x0c, 0x21, 0x12, 0xa4, 0x42] + transactionID
                  + [0x00, 0x20, 0x00, 0x08, 0x00, 0x01, 0xa1, 0x47, 0xe1, 0x12, 0xa6, 0x43]) == Found([192, 0, 2, 1])
  {
    hide Parse, DecodeValue;
    var header := [0x01, 0x01, 0x00, 0x0c, 0x21, 0x12, 0xa4, 0x42];
    var attribute := [0x00, 0x20, 0x00, 0x08, 0x00, 0x01, 0xa1, 0x47, 0xe1, 0x12, 0xa6, 0x43];
    var r := header + transactionID + attribute;
    InThree(header, transactionID, attribute);
    assert attribute[4..] == [0x00, 0x01, 0xa1, 0x47, 0xe1, 0x12, 0xa6, 0x43];
    OnlyAttribute(r);
    KnownValueV4(transactionID);
  }

  lemma InThree(a: seq<u8>, b: seq<u8>, c: seq<u8>)
    requires |a| == 8 && |b| == 12 && |c| == 12
    ensures var r := a + b + c;
      && r[2] == a[2] && r[3] == a[3] && r[20] == c[0] && r[21] == c[1] && r[22] == c[2] && r[23] == c[3]
      && r[8..20] == b && r[24..32] == c[4..]
  {}

  /** The all-zero IPv6 address is sent as the cookie followed by the transaction ID. */
  lemma KnownValueV6(port: seq<u8>, transactionID: seq<u8>)
    requires |port| == 2 && |transactionID| == 12
    ensures DecodeValue([0x00, 0x02] + port + [0x21, 0x12, 0xA4, 0x42] + transactionID, transactionID) ==
      Found(seq(16, _ => 0))
  {
    hide Xor;
    var value := [0x00, 0x02] + port + [0x21, 0x12, 0xA4, 0x42] + transactionID;
    assert value[4..20] == COOKIE + transactionID;
    forall i | 0 <= i < 16 ensures XorWith(value[4..20], COOKIE + transactionID)[i] == 0 {
      XorZero(value[4..20][i]);
    }
    assert XorWith(value[4..20], COOKIE + transactionID) == seq(16, _ => 0);
  }
}
