/**
 * The compressor side of the format, as a reference for the decoder: the
 * webgl-loader compressor delta-codes each channel, zigzags the deltas and
 * writes indices as back-references from a high-water mark. Decoding what it
 * writes gives back the mesh it was given.
 */
module MeshEncoder {
  import opened Outcomes
  import opened MeshFormat
  import opened MeshSpec

  // ---------------------------------------------------------------------------
  // Attribute channels

  /** The value a channel's delta at vertex `k` is taken against (0 before the first vertex). */
  function Previous(values: seq<int>, k: nat): int
    requires k < |values|
  {
    if k == 0 then 0 else values[k - 1]
  }

  /** Every step of the channel fits one zigzag-coded unit. */
  ghost predicate SmallSteps(values: seq<int>) {
    forall k :: 0 <= k < |values| ==> -0x8000 <= values[k] - Previous(values, k) < 0x8000
  }

  /** One channel block: the zigzag codes of the successive differences. */
  function EncodeChannel(values: seq<int>): (block: seq<CodeUnit>)
    requires SmallSteps(values)
    ensures |block| == |values|
  {
    seq(|values|, k requires 0 <= k < |values| => ZigZagEncode(values[k] - Previous(values, k)))
  }

  /** The running total of a block's deltas is the value that was encoded. */
  lemma {:induction false} ChannelRoundTrip(values: seq<int>, j: nat)
    requires SmallSteps(values) && j < |values|
    ensures DeltaSum(EncodeChannel(values)[..j + 1]) == values[j]
  {
    var block := EncodeChannel(values);
    assert block[..j + 1][..j] == block[..j];
    ZigZagRoundTrip(values[j] - Previous(values, j));
    if j > 0 {
      ChannelRoundTrip(values, j - 1);
    } else {
      assert block[..j] == [];
    }
  }

  // ---------------------------------------------------------------------------
  // Indices

  /** The high-water mark the compressor holds before it emits index `k`. */
  function MarkBefore(xs: seq<Uint16>, k: nat): nat
    requires k <= |xs|
  {
    if k == 0 then 0 else MarkBefore(xs, k - 1) + (if xs[k - 1] == MarkBefore(xs, k - 1) then 1 else 0)
  }

  /**
   * Each index is the next new vertex or one already introduced: the order in
   * which the compressor numbers vertices, by first use.
   */
  ghost predicate FirstUseOrder(xs: seq<Uint16>) {
    forall k :: 0 <= k < |xs| ==> xs[k] <= MarkBefore(xs, k) < 0x1_0000
  }

  /** Index tokens: the distance back from the mark, 0 for a new vertex. */
  function EncodeIndices(xs: seq<Uint16>): (tokens: seq<CodeUnit>)
    requires FirstUseOrder(xs)
    ensures |tokens| == |xs|
  {
    seq(|xs|, k requires 0 <= k < |xs| => MarkBefore(xs, k) - xs[k])
  }

  /** The decoder's mark (zero tokens so far) tracks the compressor's mark. */
  lemma {:induction false} MarkIsZeroCount(xs: seq<Uint16>, k: nat)
    requires FirstUseOrder(xs) && k <= |xs|
    ensures ZeroCount(EncodeIndices(xs)[..k]) == MarkBefore(xs, k)
  {
    if k > 0 {
      MarkIsZeroCount(xs, k - 1);
      ZeroCountStep(EncodeIndices(xs), k - 1);
    } else {
      assert EncodeIndices(xs)[..k] == [];
    }
  }

  lemma IndicesRoundTrip(xs: seq<Uint16>, k: nat)
    requires FirstUseOrder(xs) && k < |xs|
    ensures IndexValue(EncodeIndices(xs), k) == xs[k]
  {
    MarkIsZeroCount(xs, k);
  }

  /** What the compressor writes meets the decoder's well-formedness condition. */
  lemma EncodedIndicesWellFormed(xs: seq<Uint16>)
    requires FirstUseOrder(xs)
    ensures WellFormedTokens(EncodeIndices(xs))
  {
    forall k | 0 <= k < |xs|
      ensures EncodeIndices(xs)[k] <= ZeroCount(EncodeIndices(xs)[..k])
    {
      MarkIsZeroCount(xs, k);
    }
  }

  // ---------------------------------------------------------------------------
  // The whole stream

  /** Blocks written one after another. */
  function Concat(blocks: seq<seq<CodeUnit>>): seq<CodeUnit> {
    if blocks == [] then [] else blocks[0] + Concat(blocks[1..])
  }

  /** Equal-length blocks written back to back: `n` units per block. */
  lemma {:induction false} ConcatLength(blocks: seq<seq<CodeUnit>>, n: nat)
    requires forall b :: 0 <= b < |blocks| ==> |blocks[b]| == n
    ensures |Concat(blocks)| == |blocks| * n
  {
    if blocks != [] {
      ConcatLength(blocks[1..], n);
      assert |blocks| * n == n + (|blocks| - 1) * n;
    }
  }

  /** Block `i` of equal-length blocks occupies positions i*n .. (i+1)*n. */
  lemma {:induction false} ConcatSlice(blocks: seq<seq<CodeUnit>>, n: nat, i: nat)
    requires forall b :: 0 <= b < |blocks| ==> |blocks[b]| == n
    requires i < |blocks|
    ensures (i + 1) * n <= |Concat(blocks)|
    ensures Concat(blocks)[i * n..(i + 1) * n] == blocks[i]
  {
    var rest := blocks[1..];
    ConcatLength(blocks, n);
    ConcatLength(rest, n);
    var whole := Concat(blocks);
    assert whole == blocks[0] + Concat(rest);
    if i == 0 {
      assert whole[..n] == blocks[0];
    } else {
      ConcatSlice(rest, n, i - 1);
      var lo := (i - 1) * n;
      assert i * n == lo + n && (i + 1) * n == lo + n + n;
      assert whole[lo + n..lo + n + n] == Concat(rest)[lo..lo + n];
    }
  }

  /** The eight channels, each `n` values long and each encodable. */
  ghost predicate Encodable(channels: seq<seq<int>>, n: nat) {
    |channels| == 8 &&
    forall c :: 0 <= c < 8 ==> |channels[c]| == n && SmallSteps(channels[c])
  }

  /** The attribute table for the channels: vertex-major, eight cells per vertex. */
  function Interleave(channels: seq<seq<int>>, n: nat): (table: seq<int>)
    requires Encodable(channels, n)
    ensures |table| == 8 * n
  {
    seq(8 * n, p requires 0 <= p < 8 * n => channels[p % 8][p / 8])
  }

  /** The eight channel blocks, in channel order. */
  function ChannelBlocks(channels: seq<seq<int>>, n: nat): (blocks: seq<seq<CodeUnit>>)
    requires Encodable(channels, n)
    ensures |blocks| == 8 && forall b :: 0 <= b < 8 ==> |blocks[b]| == n
  {
    seq(8, c requires 0 <= c < 8 => EncodeChannel(channels[c]))
  }

  /** The whole stream: header unit, eight channel blocks, index tokens. */
  function EncodeMesh(n: nat, channels: seq<seq<int>>, xs: seq<Uint16>): seq<CodeUnit>
    requires 1 <= n <= MaxVertexCount && Encodable(channels, n) && FirstUseOrder(xs)
  {
    [HeaderUnit(n)] + Concat(ChannelBlocks(channels, n)) + EncodeIndices(xs)
  }

  lemma EncodedChannel(n: nat, channels: seq<seq<int>>, xs: seq<Uint16>, c: nat)
    requires 1 <= n <= MaxVertexCount && Encodable(channels, n) && FirstUseOrder(xs) && c < 8
    ensures |EncodeMesh(n, channels, xs)| == IndexRegionStart(n) + |xs|
    ensures Channel(EncodeMesh(n, channels, xs), n, c) == EncodeChannel(channels[c])
  {
    var str := EncodeMesh(n, channels, xs);
    var blocks := ChannelBlocks(channels, n);
    var body := Concat(blocks);
    ConcatLength(blocks, n);
    ConcatSlice(blocks, n, c);
    ChannelLayout(n, c, 0);
    assert str[ChannelStart(n, c)..ChannelStart(n, c + 1)] == body[c * n..(c + 1) * n];
  }

  /** Decoding the compressor's stream gives back its attribute table and index list. */
  lemma MeshRoundTrip(n: nat, channels: seq<seq<int>>, xs: seq<Uint16>)
    requires 1 <= n <= MaxVertexCount && Encodable(channels, n) && FirstUseOrder(xs)
    ensures Decompress(EncodeMesh(n, channels, xs)) == Ok(Mesh(Interleave(channels, n), xs))
  {
    var str := EncodeMesh(n, channels, xs);
    HeaderRoundTrip(n);
    EncodedChannel(n, channels, xs, 0);
    assert str[0] == HeaderUnit(n);
    var r := Decompress(str);
    assert r.Ok?;
    forall p | 0 <= p < 8 * n
      ensures r.value.attribs[p] == Interleave(channels, n)[p]
    {
      EncodedChannel(n, channels, xs, p % 8);
      ChannelRoundTrip(channels[p % 8], p / 8);
    }
    assert IndexTokens(str, n) == EncodeIndices(xs);
    forall k | 0 <= k < |xs|
      ensures r.value.indices[k] == xs[k]
    {
      IndicesRoundTrip(xs, k);
    }
    assert r.value.attribs == Interleave(channels, n);
    assert r.value.indices == xs;
  }

}
