/** Length-prefixed packet framing: the client's encoder and decoder, the relay's encoder and decoder. */
module Framing {
  import opened Bytes

  const HEADER: nat := 2
  const MAX_FRAME: nat := 1420

  function Frame(pkt: seq<u8>): (f: seq<u8>)
    requires |pkt| <= MAX_FRAME
    ensures |f| == HEADER + |pkt|
  {
    BE16(|pkt|) + pkt
  }

  /** What is put on the stream for one packet: its frame, or nothing when it does not fit. */
  function Head(pkt: seq<u8>): (s: seq<u8>) {
    if |pkt| <= MAX_FRAME then Frame(pkt) else []
  }

  /** The stream that carries the packets that fit a frame. */
  function Stream(pkts: seq<seq<u8>>): (s: seq<u8>) {
    if pkts == [] then [] else Head(pkts[0]) + Stream(pkts[1..])
  }

  /** The packets of at most MAX_FRAME bytes, in order. */
  function Fitting(pkts: seq<seq<u8>>): (r: seq<seq<u8>>) {
    if pkts == [] then [] else (if |pkts[0]| <= MAX_FRAME then [pkts[0]] else []) + Fitting(pkts[1..])
  }

  function NonEmpty(pkts: seq<seq<u8>>): (r: seq<seq<u8>>) {
    if pkts == [] then [] else (if pkts[0] != [] then [pkts[0]] else []) + NonEmpty(pkts[1..])
  }

  /** Why a decoder stops: end of stream between frames or inside a header, a bad length, or a cut payload. */
  datatype Stop = EndOfStream | BadSize | CutShort

  datatype Decoded = Decoded(pkts: seq<seq<u8>>, stop: Stop)

  /** The reference decoder. */
  function Decode(s: seq<u8>): (d: Decoded)
    decreases |s|
  {
    if |s| < HEADER then Decoded([], EndOfStream)
    else
      var n := U16At(s, 0);
      if n == 0 || n > MAX_FRAME then Decoded([], BadSize)
      else if |s| < HEADER + n then Decoded([], CutShort)
      else
        var rest := Decode(s[HEADER + n..]);
        Decoded([s[HEADER..HEADER + n]] + rest.pkts, rest.stop)
  }

  lemma DecodeFrame(pkt: seq<u8>, tail: seq<u8>)
    requires |pkt| <= MAX_FRAME
    ensures pkt != [] ==>
      Decode(Frame(pkt) + tail) == Decoded([pkt] + Decode(tail).pkts, Decode(tail).stop)
    ensures pkt == [] ==> Decode(Frame(pkt) + tail) == Decoded([], BadSize)
  {
    hide Word, Hi, Lo;
    var s := Frame(pkt) + tail;
    assert s[0] == BE16(|pkt|)[0] && s[1] == BE16(|pkt|)[1];
    ReadBack16(s, 0, |pkt|);
    assert s[HEADER..HEADER + |pkt|] == pkt && s[HEADER + |pkt|..] == tail;
  }

  /** The header is the length in big-endian order; a length of 0 or over 1420 stops the decoder. */
  lemma HeaderMeans(pkt: seq<u8>, hi: u8, lo: u8, tail: seq<u8>)
    ensures |pkt| <= 1420 ==> Frame(pkt)[0] * 256 as int + Frame(pkt)[1] == |pkt| && Frame(pkt)[2..] == pkt
    ensures hi * 256 as int + lo == 0 || hi * 256 as int + lo > 1420 ==>
      Decode([hi, lo] + tail) == Decoded([], BadSize)
  {
    WordHiLo(|pkt| % 0x1_0000);
    assert ([hi, lo] + tail)[0] == hi && ([hi, lo] + tail)[1] == lo;
  }

  /** A frame cut short yields nothing: the end of the stream inside its header, a cut payload after it. */
  lemma CutFrameStops(pkt: seq<u8>, k: nat)
    requires pkt != [] && |pkt| <= MAX_FRAME && k < HEADER + |pkt|
    ensures Decode(Frame(pkt)[..k]) == Decoded([], if k < 2 then EndOfStream else CutShort)
  {
    hide Word, Hi, Lo;
    if k >= 2 {
      var s := Frame(pkt)[..k];
      assert s[0] == BE16(|pkt|)[0] && s[1] == BE16(|pkt|)[1];
      ReadBack16(s, 0, |pkt|);
    }
  }

  lemma CountFront(kept: seq<seq<u8>>, keep: bool, p: seq<u8>, x: seq<u8>)
    ensures multiset((if keep then [p] else []) + kept)[x] == multiset(kept)[x] + if keep && p == x then 1 else 0
  {}

  lemma FiltersHead(pkts: seq<seq<u8>>)
    requires pkts != []
    ensures Fitting(pkts) == (if |pkts[0]| <= MAX_FRAME then [pkts[0]] else []) + Fitting(pkts[1..])
    ensures NonEmpty(pkts) == (if pkts[0] != [] then [pkts[0]] else []) + NonEmpty(pkts[1..])
  {}

  /** `Fitting` keeps each packet of at most 1420 bytes, and `NonEmpty` each of at least one, as often as it occurs. */
  lemma {:induction false} FiltersExact(pkts: seq<seq<u8>>, x: seq<u8>)
    ensures multiset(Fitting(pkts))[x] == if |x| <= 1420 then multiset(pkts)[x] else 0
    ensures multiset(NonEmpty(pkts))[x] == if |x| >= 1 then multiset(pkts)[x] else 0
  {
    if pkts != [] {
      FiltersHead(pkts);
      var p, rest := pkts[0], pkts[1..];
      FiltersExact(rest, x);
      hide Fitting, NonEmpty;
      assert pkts == [p] + rest;
      CountFront(Fitting(rest), |p| <= MAX_FRAME, p, x);
      CountFront(NonEmpty(rest), p != [], p, x);
      CountFront(rest, true, p, x);
    }
  }

  /** Decoding the stream of non-empty packets gives back, in order, exactly those that fit a frame. */
  lemma {:induction false} RoundTrip(pkts: seq<seq<u8>>)
    requires [] !in pkts
    ensures Decode(Stream(pkts)) == Decoded(Fitting(pkts), EndOfStream)
  {
    hide Frame;
    if pkts != [] {
      RoundTrip(pkts[1..]);
      assert [] !in pkts[1..];
      if |pkts[0]| <= MAX_FRAME {
        DecodeFrame(pkts[0], Stream(pkts[1..]));
      } else {
        assert [] + Stream(pkts[1..]) == Stream(pkts[1..]);
      }
    }
  }

  /** The client sends only packets of 1 to 1420 bytes, and the relay receives exactly those. */
  lemma ClientToRelay(pkts: seq<seq<u8>>)
    ensures Decode(Stream(NonEmpty(pkts))) == Decoded(Fitting(NonEmpty(pkts)), EndOfStream)
  {
    NonEmptyHasNone(pkts);
    RoundTrip(NonEmpty(pkts));
  }

  lemma {:induction false} NonEmptyHasNone(pkts: seq<seq<u8>>)
    ensures [] !in NonEmpty(pkts)
  {
    if pkts != [] {
      NonEmptyHasNone(pkts[1..]);
    }
  }

  lemma {:induction false} DecodedNonEmpty(s: seq<u8>)
    ensures [] !in Decode(s).pkts
    decreases |s|
  {
    hide U16At;
    if |s| >= HEADER {
      var n := U16At(s, 0);
      if 0 < n <= MAX_FRAME && |s| >= HEADER + n {
        DecodedNonEmpty(s[HEADER + n..]);
        assert |s[HEADER..HEADER + n]| == n;
      }
    }
  }

  lemma {:induction false} FittingKeepsEmpty(pkts: seq<seq<u8>>)
    requires [] in pkts
    ensures [] in Fitting(pkts)
  {
    if pkts[0] != [] {
      FittingKeepsEmpty(pkts[1..]);
    }
  }

  /** The relay frames whatever fits; the client recovers all of it exactly when no packet is empty. */
  lemma RelayToClientIff(pkts: seq<seq<u8>>)
    ensures Decode(Stream(pkts)).pkts == Fitting(pkts) <==> [] !in pkts
  {
    if [] !in pkts {
      RoundTrip(pkts);
    } else {
      FittingKeepsEmpty(pkts);
      DecodedNonEmpty(Stream(pkts));
    }
  }

  /** Cutting a stream anywhere loses packets only at the end. */
  lemma {:induction false} TruncatedDecodesToPrefix(s: seq<u8>, k: nat)
    requires k <= |s|
    ensures Decode(s[..k]).pkts <= Decode(s).pkts
    decreases |s|
  {
    hide Word;
    if k >= HEADER {
      var n := U16At(s, 0);
      assert U16At(s[..k], 0) == n;
      if 0 < n <= MAX_FRAME && k >= HEADER + n {
        assert s[..k][HEADER..HEADER + n] == s[HEADER..HEADER + n];
        assert s[..k][HEADER + n..] == s[HEADER + n..][..k - HEADER - n];
        TruncatedDecodesToPrefix(s[HEADER + n..], k - HEADER - n);
      }
    }
  }

  // ---------- as they run ----------

  lemma {:induction false} StreamAppend(pkts: seq<seq<u8>>, p: seq<u8>)
    ensures Stream(pkts + [p]) == Stream(pkts) + Head(p)
  {
    hide Frame;
    var t := Head(p);
    if pkts == [] {
      assert pkts + [p] == [p] && [p][1..] == [];
      assert t + [] == [] + t;
    } else {
      assert (pkts + [p])[1..] == pkts[1..] + [p];
      StreamAppend(pkts[1..], p);
      var h, r := Head(pkts[0]), Stream(pkts[1..]);
      assert h + (r + t) == (h + r) + t;
    }
  }

  lemma {:induction false} NonEmptyAppend(pkts: seq<seq<u8>>, p: seq<u8>)
    ensures NonEmpty(pkts + [p]) == NonEmpty(pkts) + if p != [] then [p] else []
  {
    if pkts == [] {
      assert [p][1..] == [];
    } else {
      assert (pkts + [p])[1..] == pkts[1..] + [p];
      NonEmptyAppend(pkts[1..], p);
      var h, r := if pkts[0] != [] then [pkts[0]] else [], NonEmpty(pkts[1..]);
      var t := if p != [] then [p] else [];
      assert h + (r + t) == (h + r) + t;
    }
  }

  /**
   * The client's outbound loop: one reused frame buffer, one write per packet, stopping at the first failed write.
   * `writeOk(i)` is the outcome of the write for the `i`-th packet taken from the channel. The relay decodes exactly
   * the packets of 1 to MAX_FRAME bytes among those taken.
   */
  method PumpOutbound(outbound: seq<seq<u8>>, writeOk: nat -> bool) returns (out: seq<u8>, txBytes: nat, taken: nat)
    ensures taken <= |outbound| && out == Stream(NonEmpty(outbound[..taken])) && txBytes == |out|
    ensures taken < |outbound| ==> 0 < |outbound[taken]| <= MAX_FRAME && !writeOk(taken)
    ensures Decode(out) == Decoded(Fitting(NonEmpty(outbound[..taken])), EndOfStream)
  {
    hide Frame, Stream, NonEmpty, Decode, Fitting;
    StreamOfNothing();
    assert outbound[..0] == [];
    var frame := new u8[HEADER + MAX_FRAME](_ => 0);
    out, txBytes, taken := [], 0, 0;
    while taken < |outbound|
      invariant taken <= |outbound| && out == Stream(NonEmpty(outbound[..taken])) && txBytes == |out|
    {
      var pkt := outbound[taken];
      assert outbound[..taken + 1] == outbound[..taken] + [pkt];
      NonEmptyAppend(outbound[..taken], pkt);
      StreamAppend(NonEmpty(outbound[..taken]), pkt);
      assert NonEmpty(outbound[..taken]) + [] == NonEmpty(outbound[..taken]) && out + [] == out;
      var n := |pkt|;
      if n != 0 && n <= MAX_FRAME {
        FillFrame(frame, pkt);
        if !writeOk(taken) {
          ClientToRelay(outbound[..taken]);
          return;
        }
        out := out + frame[..HEADER + n];
        txBytes := txBytes + HEADER + n;
      }
      taken := taken + 1;
    }
    ClientToRelay(outbound[..taken]);
  }

  lemma StreamOfNothing()
    ensures Stream(NonEmpty([])) == [] && Stream([]) == []
  {}

  /** Overwrites the front of the reused buffer with a whole frame. */
  method FillFrame(frame: array<u8>, pkt: seq<u8>)
    requires |pkt| <= MAX_FRAME && frame.Length == HEADER + MAX_FRAME
    modifies frame
    ensures frame[..HEADER + |pkt|] == Frame(pkt)
  {
    frame[0] := Hi(|pkt|);
    frame[1] := Lo(|pkt|);
    var k := 0;
    while k < |pkt|
      invariant 0 <= k <= |pkt|
      invariant frame[0] == Hi(|pkt|) && frame[1] == Lo(|pkt|)
      invariant forall j :: 0 <= j < k ==> frame[HEADER + j] == pkt[j]
    {
      frame[HEADER + k] := pkt[k];
      k := k + 1;
    }
  }

  /** One step of the reference decoder, read at position `pos` of the whole stream. */
  lemma DecodeAt(body: seq<u8>, pos: nat)
    requires pos <= |body|
    ensures |body| - pos < HEADER ==> Decode(body[pos..]) == Decoded([], EndOfStream)
    ensures |body| - pos >= HEADER ==>
      var n := Word(body[pos], body[pos + 1]);
      if n == 0 || n > MAX_FRAME then Decode(body[pos..]) == Decoded([], BadSize)
      else if |body| - pos < HEADER + n then Decode(body[pos..]) == Decoded([], CutShort)
      else
        var rest := Decode(body[pos + HEADER + n..]);
        Decode(body[pos..]) == Decoded([body[pos + HEADER..pos + HEADER + n]] + rest.pkts, rest.stop)
  {
    hide Word;
    var s := body[pos..];
    if |s| >= HEADER {
      var n := Word(body[pos], body[pos + 1]);
      assert n == U16At(s, 0);
      if |s| >= HEADER + n {
        assert s[HEADER..HEADER + n] == body[pos + HEADER..pos + HEADER + n];
        assert s[HEADER + n..] == body[pos + HEADER + n..];
      }
    }
  }

  /**
   * The read loops of both ends: a reused header and a reused packet buffer filled by ReadFull, each packet handed
   * over before the buffer is used again.
   */
  method ReadFrames(body: seq<u8>) returns (delivered: seq<seq<u8>>, stop: Stop)
    ensures Decoded(delivered, stop) == Decode(body)
  {
    hide Decode, Word;
    var buf := new u8[MAX_FRAME](_ => 0);
    var pos := 0;
    delivered := [];
    assert body[0..] == body;
    while true
      invariant 0 <= pos <= |body|
      invariant Decode(body) == Decoded(delivered + Decode(body[pos..]).pkts, Decode(body[pos..]).stop)
      decreases |body| - pos
    {
      DecodeAt(body, pos);
      if |body| - pos < HEADER {
        return delivered, EndOfStream;
      }
      var n := Word(body[pos], body[pos + 1]);
      if n == 0 || n > MAX_FRAME {
        return delivered, BadSize;
      }
      if |body| - pos < HEADER + n {
        return delivered, CutShort;
      }
      ReadFull(buf, body, pos + HEADER, n);
      delivered := delivered + [buf[..n]];
      pos := pos + HEADER + n;
    }
  }

  method ReadFull(buf: array<u8>, body: seq<u8>, at: nat, n: nat)
    requires n <= buf.Length && at + n <= |body|
    modifies buf
    ensures buf[..n] == body[at..at + n]
  {
    var k := 0;
    while k < n
      invariant 0 <= k <= n && buf[..k] == body[at..at + k]
    {
      buf[k] := body[at + k];
      k := k + 1;
    }
  }

  /** A beginning of a stream, extended by anything, decodes to a prefix of what the whole decodes to. */
  lemma PrefixDecodes(s: seq<u8>, t: seq<u8>)
    requires s <= t
    ensures Decode(s).pkts <= Decode(t).pkts
  {
    TruncatedDecodesToPrefix(t, |s|);
    assert t[..|s|] == s;
  }

  lemma {:induction false} StreamPrefix(pkts: seq<seq<u8>>, k: nat)
    requires k <= |pkts|
    ensures Stream(pkts[..k]) <= Stream(pkts)
    decreases k
  {
    hide Head;
    if k == 0 {
      assert pkts[..0] == [];
    } else {
      assert pkts[..k][1..] == pkts[1..][..k - 1] && pkts[..k][0] == pkts[0];
      StreamPrefix(pkts[1..], k - 1);
    }
  }

  /**
   * The relay's outbound loop: a packet over the limit is dropped, any other is written as header then body, and
   * the first failed write ends it. Whatever fails, the client decodes a prefix of the packets that fit.
   */
  method WriteFrames(outCh: seq<seq<u8>>, headerOk: nat -> bool, bodyOk: nat -> bool)
    returns (w: seq<u8>, taken: nat)
    ensures taken <= |outCh|
    ensures taken == |outCh| ==> w == Stream(outCh)
    ensures taken < |outCh| ==>
      && |outCh[taken]| <= MAX_FRAME && !(headerOk(taken) && bodyOk(taken))
      && w == Stream(outCh[..taken]) + if headerOk(taken) then BE16(|outCh[taken]|) else []
    ensures Decode(w).pkts <= Decode(Stream(outCh)).pkts
  {
    hide Stream, Decode, BE16;
    StreamOfNothing();
    assert outCh[..0] == [];
    w, taken := [], 0;
    while taken < |outCh|
      invariant taken <= |outCh| && w == Stream(outCh[..taken])
    {
      var pkt := outCh[taken];
      assert outCh[..taken + 1] == outCh[..taken] + [pkt];
      StreamAppend(outCh[..taken], pkt);
      StreamPrefix(outCh, taken);
      StreamPrefix(outCh, taken + 1);
      assert w + [] == w;
      if |pkt| <= MAX_FRAME {
        if !headerOk(taken) {
          PrefixDecodes(w, Stream(outCh));
          return;
        }
        w := w + BE16(|pkt|);
        if !bodyOk(taken) {
          PrefixDecodes(w, Stream(outCh));
          return;
        }
        w := w + pkt;
      }
      taken := taken + 1;
    }
    assert outCh[..taken] == outCh;
  }
}
