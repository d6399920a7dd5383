/**
 Length-prefixed framing: an eight-byte big-endian length, then the bytes. The delta log and the
 `/v1/deltas` body both use it.
 */
module Frames {
  import opened Wire

  const HEADER: nat := 8

  function Pow256(k: nat): (r: nat)
    ensures r >= 1
  {
    if k == 0 then 1 else 256 * Pow256(k - 1)
  }

  /** The `k` low base-256 digits of `n`, most significant first. */
  function ToBigEndian(n: nat, k: nat): (r: Bytes)
    ensures |r| == k
    decreases k, n
  {
    if k == 0 then [] else ToBigEndian(n / 256, k - 1) + [(n % 256) as Byte]
  }

  function FromBigEndian(s: Bytes): nat
  {
    if s == [] then 0 else FromBigEndian(s[..|s| - 1]) * 256 + s[|s| - 1] as nat
  }

  lemma {:induction false} BigEndianRoundTrip(n: nat, k: nat)
    requires n < Pow256(k)
    ensures FromBigEndian(ToBigEndian(n, k)) == n
  {
    if k > 0 {
      BigEndianRoundTrip(n / 256, k - 1);
      var s := ToBigEndian(n, k);
      assert s[..|s| - 1] == ToBigEndian(n / 256, k - 1);
    }
  }

  lemma TimesBase(b: nat, p: nat)
    ensures b * p * 256 == b * (256 * p)
  {
  }

  /** The first byte weighs most, by 256 to the number of bytes behind it. */
  lemma {:induction false} MostSignificantFirst(b: Byte, s: Bytes)
    ensures FromBigEndian([b] + s) == b as nat * Pow256(|s|) + FromBigEndian(s)
    decreases |s|
  {
    if s == [] {
      assert [b][..0] == [] && [b] + s == [b];
    } else {
      var front, last := s[..|s| - 1], s[|s| - 1];
      assert ([b] + s)[..|s|] == [b] + front && ([b] + s)[|s|] == last;
      MostSignificantFirst(b, front);
      TimesBase(b as nat, Pow256(|front|));
    }
  }

  lemma PrefixReach()
    ensures Pow256(8) == 0x1_0000_0000_0000_0000
  {
    assert Pow256(4) == 0x1_0000_0000;
  }

  /** The length prefix holds lengths below 2^64. */
  predicate Framable(raw: Bytes) {
    |raw| < Pow256(HEADER)
  }

  function Frame(raw: Bytes): Bytes {
    ToBigEndian(|raw|, HEADER) + raw
  }

  function FrameAll(raws: seq<Bytes>): Bytes {
    if raws == [] then [] else FrameAll(raws[..|raws| - 1]) + Frame(raws[|raws| - 1])
  }

  lemma {:induction false} FrameAllAppend(xs: seq<Bytes>, ys: seq<Bytes>)
    ensures FrameAll(xs + ys) == FrameAll(xs) + FrameAll(ys)
  {
    if ys == [] {
      assert xs + ys == xs;
    } else {
      var front, last := ys[..|ys| - 1], ys[|ys| - 1];
      FrameAllAppend(xs, front);
      assert (xs + ys)[..|xs + ys| - 1] == xs + front && (xs + ys)[|xs + ys| - 1] == last;
      assert FrameAll(xs + ys) == FrameAll(xs + front) + Frame(last);
      assert FrameAll(xs) + FrameAll(front) + Frame(last) == FrameAll(xs) + (FrameAll(front) + Frame(last));
    }
  }

  function LengthAt(blob: Bytes, offset: nat): nat
    requires offset + HEADER <= |blob|
  {
    FromBigEndian(blob[offset..offset + HEADER])
  }

  /** What a reader finds at `offset`: too few bytes for a header, a payload cut short, or a frame. */
  datatype Cut = NoHeader | Truncated(rest: Bytes, next: nat) | Whole(raw: Bytes, next: nat)

  function CutFrame(blob: Bytes, offset: nat): (c: Cut)
    ensures !c.NoHeader? ==> c.next >= offset + HEADER
    ensures c.Whole? ==> c.next <= |blob|
  {
    if |blob| < offset + HEADER then NoHeader
    else
      var start, length := offset + HEADER, LengthAt(blob, offset);
      if start + length <= |blob| then Whole(blob[start..start + length], start + length)
      else Truncated(blob[start..], start + length)
  }

  /** Reading where the first `n` frames end yields the next frame, whole. */
  lemma CutAt(raws: seq<Bytes>, n: nat)
    requires n < |raws| && Framable(raws[n])
    ensures CutFrame(FrameAll(raws), |FrameAll(raws[..n])|) == Whole(raws[n], |FrameAll(raws[..n + 1])|)
  {
    var raw := raws[n];
    assert raws[..n + 1][..n] == raws[..n];
    assert raws == raws[..n + 1] + raws[n + 1..];
    FrameAllAppend(raws[..n + 1], raws[n + 1..]);
    CutInside(FrameAll(raws[..n]), raw, FrameAll(raws[n + 1..]));
  }

  lemma CutInside(before: Bytes, raw: Bytes, rest: Bytes)
    requires Framable(raw)
    ensures CutFrame(before + Frame(raw) + rest, |before|) == Whole(raw, |before| + HEADER + |raw|)
  {
    var blob := before + Frame(raw) + rest;
    BigEndianRoundTrip(|raw|, HEADER);
    assert blob[|before|..|before| + HEADER] == ToBigEndian(|raw|, HEADER);
    assert blob[|before| + HEADER..|before| + HEADER + |raw|] == raw;
  }
}
