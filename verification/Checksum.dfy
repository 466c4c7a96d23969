/** The Internet checksum: 16-bit words summed in a 32-bit accumulator, folded, complemented. */
module Checksum {
  import opened Bytes

  /** Sum of the big-endian 16-bit words of `d`, a last odd byte being padded with zero. */
  function RawSum(d: seq<u8>): (s: nat)
    ensures 2 * s <= 0xffff * (|d| + 1)
  {
    if |d| == 0 then 0
    else if |d| == 1 then Word(d[0], 0)
    else Word(d[0], d[1]) + RawSum(d[2..])
  }

  /** One's-complement representative of `s`: zero stays zero, every other multiple of 65535 is 0xffff. */
  function Fold(s: nat): (r: u16)
  {
    if s == 0 then 0 else if s % 0xffff == 0 then 0xffff else s % 0xffff
  }

  /** The stored checksum of a sum: the complement of its fold. */
  function Complement(s: nat): (c: u16)
  {
    0xffff - Fold(s)
  }

  /** The one's-complement sum the TCP and UDP checksums add for addresses, protocol and length. */
  function PseudoSum(src: seq<u8>, dst: seq<u8>, proto: u8, l4Len: nat): (s: nat)
    requires |src| == 4 && |dst| == 4
    ensures s <= 4 * 0xffff + 0xff + l4Len
  {
    U16At(src, 0) + U16At(src, 2) + U16At(dst, 0) + U16At(dst, 2) + proto + l4Len
  }

  /** Residues modulo 65535 are unchanged by moving the high half onto the low half. */
  lemma FoldStep(s: nat)
    ensures (s / 0x1_0000 + s % 0x1_0000) % 0xffff == s % 0xffff
  {
    var q, r := s / 0x1_0000, s % 0x1_0000;
    var m := (q + r) / 0xffff;
    assert s == 0xffff * (q + m) + (q + r) % 0xffff;
  }

  /** Storing a word at an even offset changes the sum by exactly the difference of the two words. */
  lemma {:induction false} RawSumPut16(d: seq<u8>, i: nat, v: u16)
    requires i % 2 == 0 && i + 1 < |d|
    ensures RawSum(Put16(d, i, v)) == RawSum(d) - U16At(d, i) + v
  {
    var p := Put16(d, i, v);
    if i == 0 {
      WordHiLo(v);
      assert p[2..] == d[2..];
    } else {
      assert p[2..] == Put16(d[2..], i - 2, v);
      RawSumPut16(d[2..], i - 2, v);
    }
  }

  lemma {:induction false} RawSumStep(d: seq<u8>, i: nat)
    requires i + 1 < |d|
    ensures RawSum(d[i..]) == Word(d[i], d[i + 1]) + RawSum(d[i + 2..])
  {
    assert d[i..][2..] == d[i + 2..];
  }

  lemma {:induction false} RawSumEnd(d: seq<u8>, i: nat)
    requires i <= |d| <= i + 1
    ensures RawSum(d[i..]) == if i < |d| then Word(d[i], 0) else 0
  {
    if i < |d| {
      assert d[i..] == [d[i]];
    }
  }

  /** A sum completed by the complement of its own fold reads 0xffff. */
  lemma ComplementCompletes(s: nat)
    ensures Fold(s + Complement(s)) == 0xffff
    ensures Complement(s) == 0 ==> Fold(s + 0xffff) == 0xffff
  {
    var f := Fold(s);
    var q := s / 0xffff;
    assert s == 0xffff * q + s % 0xffff;
    if s % 0xffff == 0 {
      assert s + 0xffff == 0xffff * (q + 1);
    } else {
      assert s + (0xffff - f) == 0xffff * (q + 1);
    }
  }

  /** The number that `d` writes in big-endian. */
  function NumberOf(d: seq<u8>): (n: nat) {
    if d == [] then 0 else NumberOf(d[..|d| - 1]) * 256 + d[|d| - 1]
  }

  /** A multiple of 65536 and its factor have the same residue modulo 65535. */
  lemma Turn(n: nat, w: nat)
    ensures (n * 0x1_0000 + w) % 0xffff == (n % 0xffff + w) % 0xffff
  {
    var q, r := n / 0xffff, n % 0xffff;
    var k := (r + w) / 0xffff;
    assert n * 0x1_0000 + w == 0xffff * (n + q + k) + (r + w) % 0xffff;
  }

  lemma AddResidue(a: nat, w: nat)
    ensures (a % 0xffff + w) % 0xffff == (a + w) % 0xffff
  {
    var q, r := a / 0xffff, a % 0xffff;
    var k := (r + w) / 0xffff;
    assert a + w == 0xffff * (q + k) + (r + w) % 0xffff;
  }

  lemma RawSumTwo(a: u8, b: u8, rest: seq<u8>)
    ensures RawSum([a, b] + rest) == Word(a, b) + RawSum(rest)
  {
    hide Word;
    assert ([a, b] + rest)[2..] == rest;
  }

  lemma {:induction false} RawSumLast(d: seq<u8>, a: u8, b: u8)
    requires |d| % 2 == 0
    ensures RawSum(d + [a, b]) == RawSum(d) + Word(a, b)
  {
    hide Word;
    if d == [] {
      assert d + [a, b] == [a, b] && [a, b][2..] == [];
    } else {
      assert (d + [a, b])[2..] == d[2..] + [a, b];
      RawSumLast(d[2..], a, b);
    }
  }

  lemma {:induction false} RawSumPadded(d: seq<u8>)
    requires |d| % 2 == 1
    ensures RawSum(d + [0]) == RawSum(d)
  {
    hide Word;
    if |d| == 1 {
      assert (d + [0])[2..] == [];
    } else {
      assert (d + [0])[2..] == d[2..] + [0];
      RawSumPadded(d[2..]);
    }
  }

  lemma NumberLast(d: seq<u8>, a: u8, b: u8)
    ensures NumberOf(d + [a, b]) == NumberOf(d) * 0x1_0000 + Word(a, b)
  {
    var n := |d|;
    assert (d + [a, b])[..n + 1] == d + [a] && (d + [a])[..n] == d;
  }

  lemma {:induction false} EvenSumIsNumber(d: seq<u8>)
    requires |d| % 2 == 0
    ensures RawSum(d) % 0xffff == NumberOf(d) % 0xffff
    decreases |d|
  {
    hide Word;
    if d != [] {
      var e, a, b := d[..|d| - 2], d[|d| - 2], d[|d| - 1];
      assert d == e + [a, b];
      EvenSumIsNumber(e);
      RawSumLast(e, a, b);
      NumberLast(e, a, b);
      Turn(NumberOf(e), Word(a, b));
      AddResidue(RawSum(e), Word(a, b));
      hide RawSum, NumberOf;
    }
  }

  /**
   * The sum of words is, modulo 65535, the big-endian number the bytes write, with one zero byte appended when
   * their count is odd.
   */
  lemma RawSumIsNumber(d: seq<u8>)
    ensures RawSum(d) % 0xffff == NumberOf(if |d| % 2 == 0 then d else d + [0]) % 0xffff
  {
    hide RawSum, NumberOf;
    if |d| % 2 == 0 {
      EvenSumIsNumber(d);
    } else {
      RawSumPadded(d);
      EvenSumIsNumber(d + [0]);
    }
  }

  /** The pseudo-header of section 3.1 of RFC 793, laid out as bytes, has the sum that is added for it. */
  lemma PseudoSumIsHeader(src: seq<u8>, dst: seq<u8>, proto: u8, l4Len: u16)
    requires |src| == 4 && |dst| == 4
    ensures PseudoSum(src, dst, proto, l4Len) == RawSum(src + dst + [0, proto] + BE16(l4Len))
  {
    var tail := [0, proto] + BE16(l4Len);
    WordHiLo(l4Len);
    assert Word(0, proto) == proto;
    hide RawSum, Word, Hi, Lo;
    NothingSums();
    RawSumTwo(Hi(l4Len), Lo(l4Len), []);
    assert BE16(l4Len) + [] == BE16(l4Len) && BE16(l4Len) == [Hi(l4Len), Lo(l4Len)] + [];
    RawSumTwo(0, proto, BE16(l4Len));
    RawSumTwo(dst[2], dst[3], tail);
    RawSumTwo(dst[0], dst[1], [dst[2], dst[3]] + tail);
    RawSumTwo(src[2], src[3], [dst[0], dst[1]] + ([dst[2], dst[3]] + tail));
    RawSumTwo(src[0], src[1], [src[2], src[3]] + ([dst[0], dst[1]] + ([dst[2], dst[3]] + tail)));
    InPairs(src, dst, [0, proto], BE16(l4Len));
  }

  lemma InPairs(a: seq<u8>, b: seq<u8>, c: seq<u8>, d: seq<u8>)
    requires |a| == 4 && |b| == 4
    ensures a + b + c + d == [a[0], a[1]] + ([a[2], a[3]] + ([b[0], b[1]] + ([b[2], b[3]] + (c + d))))
  {}

  lemma NothingSums()
    ensures RawSum([]) == 0
  {}

  /** Sums the words of `data[from..to]` in a 32-bit accumulator, which never overflows. */
  method ChecksumRaw(data: array<u8>, from: nat, to: nat) returns (sum: u32)
    requires from <= to <= data.Length && to - from <= 0xffff
    ensures sum == RawSum(data[from..to])
  {
    hide Word, RawSum;
    ghost var d := data[from..to];
    ghost var k := 0;
    assert RawSum(d) <= 0xffff * 0x8000;
    sum := 0;
    var i := 0;
    assert d[0..] == d;
    while i + 1 < to - from
      invariant 0 <= i <= to - from && i == 2 * k
      invariant sum + RawSum(d[i..]) == RawSum(d)
    {
      RawSumStep(d, i);
      sum := sum + Word(data[from + i], data[from + i + 1]);
      i, k := i + 2, k + 1;
    }
    RawSumEnd(d, i);
    if (to - from) % 2 == 1 {
      sum := sum + Word(data[to - 1], 0);
    }
  }

  /** Folds the accumulator to 16 bits and complements it; the loop ends and keeps the residue. */
  method OnesComplement(sum: u32) returns (c: u16)
    ensures c == Complement(sum)
  {
    var s := sum;
    while s > 0xffff
      invariant s % 0xffff == sum % 0xffff
      invariant s == 0 <==> sum == 0
    {
      FoldStep(s);
      s := s / 0x1_0000 + s % 0x1_0000;
    }
    c := 0xffff - s;
  }
}
