/**
 * Units, header and per-unit codes of the compressed mesh format written by
 * the webgl-loader compressor and read by `UTF8Loader.decompressMesh`.
 *
 * A stream is a string of UTF-16 code units laid out back to back:
 *   position 0                        biased vertex count
 *   positions 1 + i*n .. 1 + (i+1)*n  channel i (x, y, z, u, v, nx, ny, nz), i < 8
 *   positions 1 + 8*n ..              index tokens
 */
module MeshFormat {

  /** One UTF-16 code unit, the value `String.prototype.charCodeAt` returns. */
  type CodeUnit = c: int | 0 <= c < 0x1_0000

  /** One cell of a `Uint16Array`. */
  type Uint16 = x: int | 0 <= x < 0x1_0000

  /** Header units from here on were lifted past the surrogate range by the encoder. */
  const BiasThreshold: int := 0xE000
  /** Width of the surrogate range D800..DFFF that the header bias skips. */
  const Bias: int := 0x0800
  /** Largest vertex count a header unit can denote: 0xFFFF - 0x0800 + 1. */
  const MaxVertexCount: nat := 0xF800

  predicate IsSurrogate(c: CodeUnit) {
    0xD800 <= c < BiasThreshold
  }

  // ---------------------------------------------------------------------------
  // Header

  /** The vertex count that header unit `c0` denotes. */
  function VertexCount(c0: CodeUnit): (n: nat)
    ensures 1 <= n <= MaxVertexCount
  {
    (if c0 >= BiasThreshold then c0 - Bias else c0) + 1
  }

  /** The header unit the compressor writes for `n` vertices: n - 1, moved past the surrogates. */
  function HeaderUnit(n: nat): (c: CodeUnit)
    requires 1 <= n <= MaxVertexCount
    ensures !IsSurrogate(c)
  {
    if n - 1 < 0xD800 then n - 1 else n - 1 + Bias
  }

  lemma HeaderRoundTrip(n: nat)
    requires 1 <= n <= MaxVertexCount
    ensures VertexCount(HeaderUnit(n)) == n
  {
  }

  /** Off the surrogate range the header decoding loses nothing. */
  lemma HeaderUnitOfVertexCount(c0: CodeUnit)
    requires !IsSurrogate(c0)
    ensures HeaderUnit(VertexCount(c0)) == c0
  {
  }

  lemma VertexCountInjective(a: CodeUnit, b: CodeUnit)
    requires !IsSurrogate(a) && !IsSurrogate(b)
    ensures VertexCount(a) == VertexCount(b) <==> a == b
  {
  }

  /** A surrogate header unit denotes the same count as the unit 0x0800 above it. */
  lemma SurrogateHeaderCollides(c0: CodeUnit)
    requires IsSurrogate(c0)
    ensures VertexCount(c0) == VertexCount(c0 + Bias)
  {
  }

  // ---------------------------------------------------------------------------
  // ECMAScript bit operators on the values the decoder feeds them.
  // Every operand is a non-negative int32 below 2^16, or the mask 0 / -1, so
  // each operator is written as the integer function it computes there. The
  // two bv32 lemmas below only document the operators' meaning on 32-bit
  // words; nothing in the model connects them to the integer functions.

  /** `x >> 1` for a non-negative int32 `x`. */
  function ShiftRight1(x: nat): nat {
    x / 2
  }

  /** `x & 1` for a non-negative int32 `x`. */
  function LowBit(x: nat): nat {
    x % 2
  }

  /** `a ^ m` for a mask `m` that is 0 or -1 (all 32 bits set). */
  function XorMask(a: int, m: int): int
    requires m == 0 || m == -1
  {
    if m == 0 then a else -a - 1
  }

  /** On 32-bit words, a logical `>> 1` halves and `& 1` takes the remainder mod 2. */
  lemma ShiftAndLowBitOnWords(c: bv32)
    ensures c >> 1 == c / 2 && c & 1 == c % 2
  {
  }

  /** On 32-bit words, XOR with all ones is minus-one-minus, and XOR with 0 changes nothing. */
  lemma XorAllOnesOnWords(b: bv32)
    ensures b ^ 0xFFFF_FFFF == 0 - b - 1 && b ^ 0 == b
  {
  }

  // ---------------------------------------------------------------------------
  // Zigzag

  /** The signed delta that unit `code` carries: `(code >> 1) ^ -(code & 1)`. */
  function ZigZag(code: CodeUnit): (d: int)
    ensures -0x8000 <= d < 0x8000
  {
    XorMask(ShiftRight1(code), -(LowBit(code) as int))
  }

  /** The compressor's zigzag encoding of a delta. */
  function ZigZagEncode(d: int): (code: CodeUnit)
    requires -0x8000 <= d < 0x8000
    ensures code % 2 == 0 <==> d >= 0
  {
    if d >= 0 then 2 * d else -2 * d - 1
  }

  lemma ZigZagClosedForm(code: CodeUnit)
    ensures code % 2 == 0 ==> ZigZag(code) == code / 2
    ensures code % 2 == 1 ==> ZigZag(code) == -(code + 1) / 2
    ensures ZigZag(code) >= 0 <==> code % 2 == 0
  {
  }

  lemma ZigZagRoundTrip(d: int)
    requires -0x8000 <= d < 0x8000
    ensures ZigZag(ZigZagEncode(d)) == d
  {
  }

  lemma ZigZagEncodeOfDecode(code: CodeUnit)
    ensures ZigZagEncode(ZigZag(code)) == code
  {
  }

  lemma ZigZagInjective(a: CodeUnit, b: CodeUnit)
    ensures ZigZag(a) == ZigZag(b) <==> a == b
  {
  }

  // ---------------------------------------------------------------------------
  // Layout

  /** Position of the first unit of channel `i` for `n` vertices. */
  function ChannelStart(n: nat, i: nat): nat {
    1 + i * n
  }

  /** Position of the first index token: one header unit plus eight channels. */
  function IndexRegionStart(n: nat): nat {
    1 + 8 * n
  }

  lemma ChannelStartMonotone(n: nat, i: nat, k: nat)
    requires i <= k
    ensures ChannelStart(n, i) <= ChannelStart(n, k)
  {
  }

  /** Channel `i`, vertex `j` reads a unit of the attribute region, inside channel `i`'s block. */
  lemma ChannelLayout(n: nat, i: nat, j: nat)
    requires i < 8 && j < n
    ensures 1 <= ChannelStart(n, i) <= ChannelStart(n, i) + j
    ensures ChannelStart(n, i) + j < ChannelStart(n, i + 1) == ChannelStart(n, i) + n
    ensures ChannelStart(n, i + 1) <= IndexRegionStart(n) == ChannelStart(n, 8)
  {
  }

  /** No unit is read by two (channel, vertex) pairs. */
  lemma ChannelsDisjoint(n: nat, i1: nat, j1: nat, i2: nat, j2: nat)
    requires i1 < 8 && j1 < n && i2 < 8 && j2 < n
    ensures ChannelStart(n, i1) + j1 == ChannelStart(n, i2) + j2 <==> i1 == i2 && j1 == j2
  {
  }

}
