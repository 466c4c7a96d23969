/** Machine integers and big-endian access to byte strings. */
module Bytes {

  type u8 = x: int | 0 <= x < 0x100
  type u16 = x: int | 0 <= x < 0x1_0000
  type u32 = x: int | 0 <= x < 0x1_0000_0000

  const TWO32: int := 0x1_0000_0000

  datatype Option<+T> = None | Some(value: T)

  /** 32-bit addition with wrap-around. */
  function Add32(a: u32, n: nat): (r: u32) {
    (a + n) % TWO32
  }

  /** The 16-bit word with the given high and low bytes. */
  function Word(hi: u8, lo: u8): (v: u16) {
    hi as int * 256 + lo as int
  }

  function U16At(b: seq<u8>, i: nat): (v: u16)
    requires i + 1 < |b|
  {
    Word(b[i], b[i + 1])
  }

  function U32At(b: seq<u8>, i: nat): (v: u32)
    requires i + 3 < |b|
  {
    U16At(b, i) * 0x1_0000 + U16At(b, i + 2)
  }

  /** High byte of a word. */
  function Hi(v: u16): (b: u8) {
    v / 256
  }

  /** Low byte of a word. */
  function Lo(v: u16): (b: u8) {
    v % 256
  }

  lemma WordHiLo(v: u16)
    ensures Word(Hi(v), Lo(v)) == v
  {}

  lemma HiLoWord(h: u8, l: u8)
    ensures Hi(Word(h, l)) == h && Lo(Word(h, l)) == l
  {}

  function BE16(v: u16): (b: seq<u8>)
    ensures |b| == 2
  {
    [Hi(v), Lo(v)]
  }

  function BE32(v: u32): (b: seq<u8>)
    ensures |b| == 4
  {
    BE16(v / 0x1_0000) + BE16(v % 0x1_0000)
  }

  /** Reading back what BE16 and BE32 laid out. */
  lemma ReadBack16(b: seq<u8>, i: nat, v: u16)
    requires i + 1 < |b| && b[i] == Hi(v) && b[i + 1] == Lo(v)
    ensures U16At(b, i) == v
  {}

  lemma ReadBack32(b: seq<u8>, i: nat, v: u32)
    requires i + 4 <= |b| && b[i..i + 4] == BE32(v)
    ensures U32At(b, i) == v
  {
    hide Hi, Lo, Word;
    var c := b[i..i + 4];
    assert c[0] == b[i] && c[1] == b[i + 1] && c[2] == b[i + 2] && c[3] == b[i + 3];
    WordHiLo(v / 0x1_0000);
    WordHiLo(v % 0x1_0000);
  }

  /** `b` with the big-endian value `v` stored at offset `i`. */
  function Put16(b: seq<u8>, i: nat, v: u16): (r: seq<u8>)
    requires i + 1 < |b|
    ensures |r| == |b| && r[i] == Hi(v) && r[i + 1] == Lo(v)
    ensures forall k :: 0 <= k < |b| && k != i && k != i + 1 ==> r[k] == b[k]
  {
    b[i := Hi(v)][i + 1 := Lo(v)]
  }

  /** `b` with the bytes `v` stored from offset `i` on. */
  function PutBytes(b: seq<u8>, i: nat, v: seq<u8>): (r: seq<u8>)
    requires i + |v| <= |b|
    ensures |r| == |b| && forall k :: i <= k < i + |v| ==> r[k] == v[k - i]
    ensures forall k :: 0 <= k < |b| && !(i <= k < i + |v|) ==> r[k] == b[k]
  {
    b[..i] + v + b[i + |v|..]
  }
}
