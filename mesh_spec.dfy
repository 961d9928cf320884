/**
 * What `decompressMesh` computes, as functions of the stream: the attribute
 * table as per-channel prefix sums of zigzag deltas, and the index list as
 * high-water-mark back-references stored in 16 bits.
 */
module MeshSpec {
  import opened Outcomes
  import opened MeshFormat

  // ---------------------------------------------------------------------------
  // Attributes

  /** The sum of the zigzag deltas that the units of `s` carry. */
  function DeltaSum(s: seq<CodeUnit>): int {
    if s == [] then 0 else DeltaSum(s[..|s| - 1]) + ZigZag(s[|s| - 1])
  }

  /** Each delta lies in -0x8000..0x7FFF, so a sum of k of them stays within k times that. */
  lemma {:induction false} DeltaSumBound(s: seq<CodeUnit>)
    ensures -0x8000 * |s| <= DeltaSum(s) <= 0x7FFF * |s|
  {
    if s != [] {
      DeltaSumBound(s[..|s| - 1]);
    }
  }

  /** The `n` units of channel `i`. */
  function Channel(str: seq<CodeUnit>, n: nat, i: nat): (block: seq<CodeUnit>)
    requires i < 8 && IndexRegionStart(n) <= |str|
    ensures |block| == n
    ensures forall j :: 0 <= j < n ==> block[j] == str[ChannelStart(n, i) + j]
  {
    ChannelStartMonotone(n, i + 1, 8);
    assert (i + 1) * n == i * n + n;
    str[ChannelStart(n, i)..ChannelStart(n, i + 1)]
  }

  /** Value of channel `i` at vertex `j`: the running total of that channel's deltas up to `j`. */
  function AttributeValue(str: seq<CodeUnit>, n: nat, i: nat, j: nat): int
    requires i < 8 && j < n && IndexRegionStart(n) <= |str|
  {
    DeltaSum(Channel(str, n, i)[..j + 1])
  }

  /** The running-total step: vertex `j` adds the delta of the unit at `1 + i*n + j`. */
  lemma AttributeValueStep(str: seq<CodeUnit>, n: nat, i: nat, j: nat)
    requires i < 8 && j < n && IndexRegionStart(n) <= |str|
    ensures AttributeValue(str, n, i, j)
            == (if j == 0 then 0 else AttributeValue(str, n, i, j - 1)) + ZigZag(str[ChannelStart(n, i) + j])
  {
    var block := Channel(str, n, i);
    assert block[..j + 1][..j] == block[..j];
    assert DeltaSum(block[..j + 1]) == DeltaSum(block[..j]) + ZigZag(block[j]);
    if j == 0 {
      assert block[..j] == [];
    }
  }

  /** Attribute-table cell `p` belongs to vertex `p / 8`, channel `p % 8`. */
  function Cell(str: seq<CodeUnit>, n: nat, p: nat): int
    requires p < 8 * n && IndexRegionStart(n) <= |str|
  {
    AttributeValue(str, n, p % 8, p / 8)
  }

  lemma CellOfVertex(n: nat, i: nat, j: nat)
    requires i < 8 && j < n
    ensures 8 * j + i < 8 * n && (8 * j + i) % 8 == i && (8 * j + i) / 8 == j
  {
  }

  // ---------------------------------------------------------------------------
  // Indices

  /** Number of zero codes in `s`. */
  function ZeroCount(s: seq<CodeUnit>): nat {
    if s == [] then 0 else ZeroCount(s[..|s| - 1]) + (if s[|s| - 1] == 0 then 1 else 0)
  }

  /** The store of a `Uint16Array`: reduction modulo 2^16 into 0..0xFFFF. */
  function ToUint16(x: int): (r: Uint16)
    ensures (x - r) % 0x1_0000 == 0
    ensures 0 <= x < 0x1_0000 ==> r == x
  {
    x % 0x1_0000
  }

  /** The index that token `i` decodes to: high-water mark before it, minus its code, in 16 bits. */
  function IndexValue(tokens: seq<CodeUnit>, i: nat): Uint16
    requires i < |tokens|
  {
    ToUint16(ZeroCount(tokens[..i]) - tokens[i])
  }

  lemma ZeroCountStep(s: seq<CodeUnit>, k: nat)
    requires k < |s|
    ensures ZeroCount(s[..k + 1]) == ZeroCount(s[..k]) + (if s[k] == 0 then 1 else 0)
  {
    assert s[..k + 1][..k] == s[..k];
  }

  lemma {:induction false} ZeroCountAtMost(s: seq<CodeUnit>)
    ensures ZeroCount(s) <= |s|
  {
    if s != [] {
      ZeroCountAtMost(s[..|s| - 1]);
    }
  }

  /** The high-water mark never decreases. */
  lemma {:induction false} ZeroCountMonotone(s: seq<CodeUnit>, k1: nat, k2: nat)
    requires k1 <= k2 <= |s|
    ensures ZeroCount(s[..k1]) <= ZeroCount(s[..k2])
    decreases k2 - k1
  {
    if k1 < k2 {
      ZeroCountMonotone(s, k1, k2 - 1);
      ZeroCountStep(s, k2 - 1);
    }
  }

  /** A zero token decodes to the current mark, so zero tokens yield 0, 1, 2, ... */
  lemma ZeroTokenYieldsMark(tokens: seq<CodeUnit>, i: nat)
    requires i < |tokens| && tokens[i] == 0
    ensures IndexValue(tokens, i) == ZeroCount(tokens[..i]) % 0x1_0000
    ensures ZeroCount(tokens[..i + 1]) == ZeroCount(tokens[..i]) + 1
  {
    ZeroCountStep(tokens, i);
  }

  /** A later zero token always sees a strictly higher mark than an earlier one. */
  lemma {:induction false} ZeroTokensCountUp(tokens: seq<CodeUnit>, i1: nat, i2: nat)
    requires i1 < i2 < |tokens| && tokens[i1] == 0
    ensures ZeroCount(tokens[..i1]) < ZeroCount(tokens[..i2])
  {
    ZeroCountStep(tokens, i1);
    ZeroCountMonotone(tokens, i1 + 1, i2);
  }

  /** A nonzero code no larger than the mark refers back to an already introduced vertex. */
  lemma BackReferenceInRange(tokens: seq<CodeUnit>, i: nat)
    requires i < |tokens| && 0 < tokens[i] <= ZeroCount(tokens[..i]) <= 0x1_0000
    ensures ZeroCount(tokens[..i]) <= i
    ensures IndexValue(tokens, i) == ZeroCount(tokens[..i]) - tokens[i]
    ensures IndexValue(tokens, i) < ZeroCount(tokens[..i])
  {
    ZeroCountAtMost(tokens[..i]);
  }

  /** Every nonzero code is a back-reference to a vertex already introduced. */
  ghost predicate WellFormedTokens(tokens: seq<CodeUnit>) {
    forall i :: 0 <= i < |tokens| ==> tokens[i] <= ZeroCount(tokens[..i])
  }

  /**
   * In a well-formed token stream, every index decoded from the first k tokens
   * is below the mark after k tokens: no index refers past the vertices introduced.
   */
  lemma IndicesBelowMark(tokens: seq<CodeUnit>, k: nat)
    requires WellFormedTokens(tokens) && k <= |tokens|
    ensures forall i :: 0 <= i < k ==> IndexValue(tokens, i) < ZeroCount(tokens[..k])
  {
    forall i | 0 <= i < k
      ensures IndexValue(tokens, i) < ZeroCount(tokens[..k])
    {
      ZeroCountStep(tokens, i);
      ZeroCountMonotone(tokens, i + 1, k);
    }
  }

  // ---------------------------------------------------------------------------
  // The whole stream

  datatype Mesh = Mesh(attribs: seq<int>, indices: seq<Uint16>)

  /** The only failure: fewer units than the header and attribute blocks need. */
  datatype DecodeError = TruncatedStream

  /** The tokens after the attribute blocks. */
  function IndexTokens(str: seq<CodeUnit>, n: nat): seq<CodeUnit>
    requires IndexRegionStart(n) <= |str|
  {
    str[IndexRegionStart(n)..]
  }

  /**
   * The outcome of `decompressMesh` on `str`. An empty string reads the count
   * as NaN, which sizes both buffers to zero; a string too short for its
   * attribute blocks makes the index buffer's length negative, which throws.
   */
  function Decompress(str: seq<CodeUnit>): (r: Result<Mesh, DecodeError>)
    ensures |str| == 0 ==> r.Ok? && r.value.attribs == [] && r.value.indices == []
    ensures |str| > 0 ==> (r.Ok? <==> IndexRegionStart(VertexCount(str[0])) <= |str|)
    ensures |str| > 0 && r.Ok? ==>
              |r.value.attribs| == 8 * VertexCount(str[0]) &&
              |r.value.indices| == |str| - IndexRegionStart(VertexCount(str[0]))
  {
    if |str| == 0 then
      Ok(Mesh([], []))
    else
      var n := VertexCount(str[0]);
      if |str| < IndexRegionStart(n) then
        Err(TruncatedStream)
      else
        var tokens := IndexTokens(str, n);
        Ok(Mesh(seq(8 * n, p requires 0 <= p < 8 * n => Cell(str, n, p)),
                seq(|tokens|, i requires 0 <= i < |tokens| => IndexValue(tokens, i))))
  }

  /** Cell `8*j + i` holds the running total of channel `i`'s deltas up to vertex `j`. */
  lemma AttributeIsPrefixSum(str: seq<CodeUnit>, i: nat, j: nat)
    requires |str| > 0 && Decompress(str).Ok?
    requires i < 8 && j < VertexCount(str[0])
    ensures Decompress(str).value.attribs[8 * j + i]
            == DeltaSum(str[ChannelStart(VertexCount(str[0]), i)..ChannelStart(VertexCount(str[0]), i) + j + 1])
  {
    var n := VertexCount(str[0]);
    CellOfVertex(n, i, j);
    ChannelLayout(n, i, j);
    assert Channel(str, n, i)[..j + 1] == str[ChannelStart(n, i)..ChannelStart(n, i) + j + 1];
  }

  /** Index `i` is the mark, the number of zero tokens before it, minus the code, in 16 bits. */
  lemma IndexIsMarkMinusCode(str: seq<CodeUnit>, i: nat)
    requires |str| > 0 && Decompress(str).Ok?
    requires i < |Decompress(str).value.indices|
    ensures var tokens := str[IndexRegionStart(VertexCount(str[0]))..];
            ZeroCount(tokens[..i]) <= i &&
            Decompress(str).value.indices[i] == ToUint16(ZeroCount(tokens[..i]) - tokens[i])
  {
    var tokens := str[IndexRegionStart(VertexCount(str[0]))..];
    ZeroCountAtMost(tokens[..i]);
  }

  /**
   * When the tokens are well formed and introduce at most as many vertices as
   * the header announces, every decoded index is a row of the attribute table.
   */
  lemma IndicesAreVertexRows(str: seq<CodeUnit>)
    requires |str| > 0 && Decompress(str).Ok?
    requires WellFormedTokens(str[IndexRegionStart(VertexCount(str[0]))..])
    requires ZeroCount(str[IndexRegionStart(VertexCount(str[0]))..]) <= VertexCount(str[0])
    ensures forall i :: 0 <= i < |Decompress(str).value.indices| ==>
              Decompress(str).value.indices[i] < VertexCount(str[0])
  {
    var tokens := str[IndexRegionStart(VertexCount(str[0]))..];
    IndicesBelowMark(tokens, |tokens|);
    assert tokens[..|tokens|] == tokens;
  }

}
