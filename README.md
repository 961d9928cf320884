# UTF8Loader mesh decompression in Dafny

This project models `THREE.UTF8Loader.prototype.decompressMesh` from three.js. The function decodes the compact mesh format that Google's webgl-loader compressor writes.

A compressed mesh is a string of UTF-16 code units with three regions:

- **Header.** Unit 0 is the vertex count minus one. Counts whose value would land in the surrogate range are lifted by 0x0800.
- **Attribute channels.** Eight blocks of `n` units each, in the order x, y, z, u, v, nx, ny, nz. Each unit is a zigzag-coded delta. A channel's values are the running totals of its deltas. They are stored interleaved, eight cells per vertex.
- **Index tokens.** The rest of the string. A token is a back-reference from a high-water mark. Code 0 introduces the next new vertex and raises the mark by one. Any other code `c` means the vertex `c` places before the mark. Results are stored in a `Uint16Array`.

Modules:

- `Outcomes` (outcomes.dfy): the `Result` type returned instead of throwing.
- `MeshFormat` (mesh_format.dfy):
  - the code-unit type;
  - header decoding, and the compressor's header encoding as its inverse;
  - the ECMAScript bit operators on the values the decoder feeds them;
  - zigzag decoding, and zigzag encoding as its inverse;
  - the stream layout.
- `MeshSpec` (mesh_spec.dfy):
  - the decoder's result as functions of the stream: `DeltaSum`, `AttributeValue`, `ZeroCount`, `IndexValue` and `Decompress`;
  - the lemmas about them.
- `UTF8Loader` (utf8_loader.dfy): `DecompressMesh`. It allocates the two buffers and fills them in place. It uses the nested attribute loops, split into `DecodeChannel`, and the index loop `DecodeIndices`. Each method is proved against the functions of `MeshSpec`.
- `MeshEncoder` (mesh_encoder.dfy): a reference model of the compressor. It includes per-channel delta coding, first-use index coding and a whole-stream encoder. `MeshRoundTrip` proves that `Decompress` returns exactly the encoder's input.
- `MeshScenarios` (scenarios.dfy): small streams decoded by hand.

Code units are integers in 0..0xFFFF, which is what `charCodeAt` returns. Attribute values are mathematical integers.

Edge cases of the code that the model reproduces:

- **Largest vertex count.** The comment at src/extras/loaders/UTF8Loader.js:6 promises fewer than 65536 vertices. The code's largest count is 0xF800 (63488), because the header unit is at most 0xFFFF and 0x0800 is subtracted from units at or above 0xE000.
- **Empty string.** It is not an error. `charCodeAt(0)` is NaN, so the count is NaN and the `Float32Array` gets length 0. The outer channel loop still makes its eight passes, with empty inner loops, and each `offset += num_verts` leaves `offset` NaN. So `num_indices` is NaN too, the `Uint16Array` gets length 0, and the index loop does not run. `Decompress` returns two empty buffers.
- **Truncated stream.** A non-empty string shorter than `1 + 8*n` throws a RangeError. The throw comes from `new Uint16Array` with a negative length, after the attribute loops have read past the end. This is modelled as `Err(TruncatedStream)`.
- **Three new-vertex tokens.** Tokens `[0, 0, 0]` decode to `[0, 1, 2]`, because every zero raises the mark. A degenerate triangle on vertex 0 is tokens `[0, 1, 1]`. `MeshScenarios` proves both.

## Model

| member | source | states |
|---|---|---|
| MeshFormat.VertexCount | src/extras/loaders/UTF8Loader.js:90-98 | the vertex count read from unit 0 is between 1 and 63488 for every code unit |
| MeshFormat.HeaderUnit | src/extras/loaders/UTF8Loader.js:90-98 | the compressor's header unit for n vertices, never a surrogate; `HeaderRoundTrip` and `HeaderUnitOfVertexCount` show it inverts `VertexCount` |
| MeshFormat.HeaderRoundTrip | src/extras/loaders/UTF8Loader.js:90-98 | decoding the compressor's header unit for n vertices gives back n, for every n in 1..63488 |
| MeshFormat.HeaderUnitOfVertexCount | src/extras/loaders/UTF8Loader.js:90-98 | for every non-surrogate header unit, re-encoding the decoded count gives back the unit |
| MeshFormat.VertexCountInjective | src/extras/loaders/UTF8Loader.js:90-98 | two non-surrogate header units denote the same count exactly when they are equal |
| MeshFormat.SurrogateHeaderCollides | src/extras/loaders/UTF8Loader.js:92-96 | a surrogate header unit c0 denotes the same count as c0 + 0x0800, so the bias is only unambiguous off the surrogates |
| MeshFormat.ShiftRight1 | src/extras/loaders/UTF8Loader.js:112 | `code >> 1` on a non-negative int32, as halving; `ZigZagClosedForm` states its effect in the decoded delta |
| MeshFormat.LowBit | src/extras/loaders/UTF8Loader.js:112 | `code & 1` on a non-negative int32, as the remainder mod 2; `ZigZagClosedForm` ties it to the delta's sign |
| MeshFormat.XorMask | src/extras/loaders/UTF8Loader.js:112 | `x ^ -(code & 1)` for the masks 0 and -1: identity, or two's-complement not; `ZigZagClosedForm` gives the result |
| MeshFormat.ShiftAndLowBitOnWords | src/extras/loaders/UTF8Loader.js:112 | on every 32-bit word, a logical `>> 1` is halving and `& 1` is the remainder mod 2; documents the operator only, as `ShiftRight1` and `LowBit` are not derived from it |
| MeshFormat.XorAllOnesOnWords | src/extras/loaders/UTF8Loader.js:112 | on 32-bit words, XOR with all ones is minus-one-minus and XOR with 0 is the identity (the two masks `-(code & 1)` takes) |
| MeshFormat.ZigZag | src/extras/loaders/UTF8Loader.js:112 | the decoded delta of any code unit lies in -0x8000..0x7FFF |
| MeshFormat.ZigZagEncode | src/extras/loaders/UTF8Loader.js:112 | the compressor's code for a delta is even exactly when the delta is non-negative |
| MeshFormat.ZigZagClosedForm | src/extras/loaders/UTF8Loader.js:112 | an even code decodes to code/2, an odd code to -(code+1)/2, and the delta is non-negative exactly for even codes |
| MeshFormat.ZigZagRoundTrip | src/extras/loaders/UTF8Loader.js:112 | decoding the zigzag code of any delta in -0x8000..0x7FFF gives back the delta |
| MeshFormat.ZigZagEncodeOfDecode | src/extras/loaders/UTF8Loader.js:112 | re-encoding the delta of any code unit gives back the unit |
| MeshFormat.ZigZagInjective | src/extras/loaders/UTF8Loader.js:112 | two code units decode to the same delta exactly when they are equal |
| MeshFormat.ChannelStart | src/extras/loaders/UTF8Loader.js:102-118 | the value of `offset` during channel i's pass, 1 + i*n; `ChannelLayout` and `ChannelsDisjoint` state what it reads |
| MeshFormat.IndexRegionStart | src/extras/loaders/UTF8Loader.js:118-122 | the value of `offset` after the eight passes, 1 + 8*n; `ChannelLayout` shows it is where channel 8 would start |
| MeshFormat.ChannelLayout | src/extras/loaders/UTF8Loader.js:102-122 | channel i at vertex j reads position 1 + i*n + j, which lies inside channel i's block; channel i+1 starts n units later; the index region starts at 1 + 8*n |
| MeshFormat.ChannelsDisjoint | src/extras/loaders/UTF8Loader.js:104-118 | two (channel, vertex) pairs read the same position exactly when they are the same pair |
| MeshSpec.DeltaSum | src/extras/loaders/UTF8Loader.js:106-112 | the running total `prev_attrib` over a run of units; `DeltaSumBound` bounds it and `ChannelRoundTrip` shows it undoes delta coding |
| MeshSpec.DeltaSumBound | src/extras/loaders/UTF8Loader.js:106-114 | a running total of k deltas lies between -0x8000*k and 0x7FFF*k |
| MeshSpec.Channel | src/extras/loaders/UTF8Loader.js:108-110 | channel i's block has n units, and its unit j is stream unit 1 + i*n + j |
| MeshSpec.AttributeValue | src/extras/loaders/UTF8Loader.js:106-114 | channel i's value at vertex j; `AttributeValueStep` gives its running-total recurrence and `AttributeIsPrefixSum` its cell |
| MeshSpec.Cell | src/extras/loaders/UTF8Loader.js:114 | the value cell p of the attribute buffer receives; `DecodeChannel` writes it and `AttributeIsPrefixSum` reads it at 8*j + i |
| MeshSpec.ZeroCount | src/extras/loaders/UTF8Loader.js:126-138 | `index_high_water_mark` after a run of tokens; `ZeroCountStep`, `ZeroCountAtMost`, `ZeroCountMonotone` and `MarkIsZeroCount` state its behaviour |
| MeshSpec.IndexValue | src/extras/loaders/UTF8Loader.js:124-132 | the value stored for token i, mark minus code through the `Uint16Array` store; `ZeroTokenYieldsMark`, `BackReferenceInRange` and `IndicesRoundTrip` state what it is |
| MeshSpec.IndexTokens | src/extras/loaders/UTF8Loader.js:122-130 | the units the index loop reads, from `offset` to the end; `IndexIsMarkMinusCode` relates them to the returned indices |
| MeshSpec.AttributeValueStep | src/extras/loaders/UTF8Loader.js:106-114 | channel i's value at vertex j is the value at j-1 (0 at the first vertex) plus the delta of unit 1 + i*n + j |
| MeshSpec.ToUint16 | src/extras/loaders/UTF8Loader.js:124-132 | the `Uint16Array` store keeps a value in 0..0xFFFF congruent to the stored one mod 2^16 and leaves values already in range unchanged |
| MeshSpec.ZeroCountStep | src/extras/loaders/UTF8Loader.js:134-138 | the mark after k+1 tokens is the mark after k, plus one exactly when token k is 0 |
| MeshSpec.ZeroCountAtMost | src/extras/loaders/UTF8Loader.js:126-138 | after k tokens the mark is at most k |
| MeshSpec.ZeroCountMonotone | src/extras/loaders/UTF8Loader.js:126-138 | the mark never decreases along the token stream |
| MeshSpec.ZeroTokenYieldsMark | src/extras/loaders/UTF8Loader.js:132-136 | a zero token decodes to the current mark mod 2^16 and raises the mark by one |
| MeshSpec.ZeroTokensCountUp | src/extras/loaders/UTF8Loader.js:132-136 | a later zero token sees a strictly higher mark than an earlier one, so new vertices are numbered in first-use order |
| MeshSpec.BackReferenceInRange | src/extras/loaders/UTF8Loader.js:132 | a nonzero code no larger than the mark decodes, without wrap-around, to mark minus code, which is below the mark |
| MeshSpec.IndicesBelowMark | src/extras/loaders/UTF8Loader.js:128-140 | when every nonzero code is at most the mark before it, every index decoded from the first k tokens is below the mark after k tokens |
| MeshSpec.Decompress | src/extras/loaders/UTF8Loader.js:88-144 | the empty string gives two empty buffers; a non-empty string succeeds exactly when it has at least 1 + 8*n units; then the attribute buffer has 8*n cells and the index buffer the remaining units |
| MeshSpec.AttributeIsPrefixSum | src/extras/loaders/UTF8Loader.js:104-120 | cell 8*j + i is the sum of the deltas of stream units 1 + i*n .. 1 + i*n + j |
| MeshSpec.IndexIsMarkMinusCode | src/extras/loaders/UTF8Loader.js:122-140 | index i is the number of zero tokens before token i, minus token i's code, mod 2^16, and that count is at most i |
| MeshSpec.IndicesAreVertexRows | src/extras/loaders/UTF8Loader.js:128-140 | with well-formed tokens that introduce at most n vertices, every decoded index is a row of the attribute table |
| UTF8Loader.DecompressMesh | src/extras/loaders/UTF8Loader.js:88-144 | succeeds exactly when `Decompress` does; then it returns two fresh arrays holding exactly `Decompress`'s attribute table and index list |
| UTF8Loader.DecodeChannel | src/extras/loaders/UTF8Loader.js:104-118 | after channel i's loop, every cell of channel i holds that channel's running total, and every other cell is unchanged |
| UTF8Loader.DecodeIndices | src/extras/loaders/UTF8Loader.js:122-140 | after the index loop, each cell k holds `IndexValue` of token k; the loop's mark equals the zero count so far |
| MeshEncoder.EncodeChannel | src/extras/loaders/UTF8Loader.js:104-120 | the compressor writes one unit per vertex of a channel |
| MeshEncoder.ChannelRoundTrip | src/extras/loaders/UTF8Loader.js:104-120 | the running total of an encoded channel's deltas up to vertex j is the channel's value at j |
| MeshEncoder.EncodeIndices | src/extras/loaders/UTF8Loader.js:128-140 | the compressor writes one token per index |
| MeshEncoder.MarkBefore | src/extras/loaders/UTF8Loader.js:126-138 | the compressor's mark before index k; `MarkIsZeroCount` shows it equals the decoder's mark |
| MeshEncoder.MarkIsZeroCount | src/extras/loaders/UTF8Loader.js:126-138 | the decoder's mark after k tokens equals the compressor's mark before index k |
| MeshEncoder.IndicesRoundTrip | src/extras/loaders/UTF8Loader.js:128-140 | every index in first-use order decodes back to itself |
| MeshEncoder.EncodedIndicesWellFormed | src/extras/loaders/UTF8Loader.js:128-140 | every code the compressor writes is at most the decoder's mark before it |
| MeshEncoder.ConcatLength | src/extras/loaders/UTF8Loader.js:102-118 | equal-length blocks of n units written back to back take n units per block |
| MeshEncoder.ConcatSlice | src/extras/loaders/UTF8Loader.js:102-118 | block i of equal-length blocks, written back to back, occupies positions i*n .. (i+1)*n |
| MeshEncoder.Interleave | src/extras/loaders/UTF8Loader.js:114 | the interleaved table has eight cells per vertex |
| MeshEncoder.ChannelBlocks | src/extras/loaders/UTF8Loader.js:102-118 | there are eight channel blocks of n units each |
| MeshEncoder.EncodeMesh | src/extras/loaders/UTF8Loader.js:88-144 | the compressor's whole stream; `EncodedChannel` gives its layout and `MeshRoundTrip` shows the decoder inverts it |
| MeshEncoder.EncodedChannel | src/extras/loaders/UTF8Loader.js:102-122 | the encoded stream is 1 + 8*n + (number of indices) units long, and the decoder's channel c block is the compressor's encoding of channel c |
| MeshEncoder.MeshRoundTrip | src/extras/loaders/UTF8Loader.js:88-144 | decoding the compressor's stream succeeds and gives back its interleaved attribute table and its index list |
| MeshScenarios.OneZeroVertexAttributes | src/extras/loaders/UTF8Loader.js:104-120 | one vertex with eight zero channel units decodes to eight zero attributes, whatever tokens follow |
| MeshScenarios.ThreeNewVertexTokens | src/extras/loaders/UTF8Loader.js:88-144 | three zero tokens after one all-zero vertex decode to indices 0, 1, 2 |
| MeshScenarios.SingleVertexTriangle | src/extras/loaders/UTF8Loader.js:88-144 | tokens 0, 1, 1 after one all-zero vertex decode to the degenerate triangle 0, 0, 0 |
| MeshScenarios.TwoVertexPositions | src/extras/loaders/UTF8Loader.js:88-144 | header 1 gives two vertices, and x-channel units 2, 0 (deltas +1, 0) give x = 1 at both |

## Left out

- `load` (src/extras/loaders/UTF8Loader.js:18-69): the request, its ready-state and progress callbacks, and error logging are network I/O.
- `createModel` and its helpers (src/extras/loaders/UTF8Loader.js:146-328): they denormalise attributes with floating-point division and build scene-graph objects. They also call centroid and face-normal routines that are not part of this model.
- `Float32Array` storage of the attribute buffer. Attribute cells are mathematical integers. The running total `prev_attrib` is an exact double, because `DeltaSumBound` keeps it below 2^31. Storing that total in a `Float32Array` rounds it once it passes 2^24. The model does not capture that rounding.
- `ZigZag`: the operators `>>`, `&` and `^` work on 32-bit words. For the operands the decoder uses, the model writes them as the integer functions they compute there: a non-negative value below 2^16, and a mask of 0 or -1. `ShiftAndLowBitOnWords` and `XorAllOnesOnWords` state those identities on `bv32`. The model does not prove the link between the word and the integer.
- `Decompress`: a non-empty truncated string reads missing units as NaN, which the bit operators turn into 0, and then throws. The model returns `Err(TruncatedStream)` without running those reads, which have no visible effect.
- The compressor is not part of this repository. `MeshEncoder` holds a reference definition of it from the format's layout, so that the decoder can be proved to invert it.
