/**
 * `THREE.UTF8Loader.prototype.decompressMesh`: allocates the attribute and
 * index buffers and fills them in place, channel by channel and token by token.
 */
module UTF8Loader {
  import opened Outcomes
  import opened MeshFormat
  import opened MeshSpec

  /** The two typed arrays the decoder returns: `Float32Array` and `Uint16Array`. */
  datatype Buffers = Buffers(attribs: array<int>, indices: array<Uint16>)

  method DecompressMesh(str: seq<CodeUnit>) returns (r: Result<Buffers, DecodeError>)
    ensures r.Ok? <==> Decompress(str).Ok?
    ensures r.Ok? ==> fresh(r.value.attribs) && fresh(r.value.indices)
    ensures r.Ok? ==> r.value.attribs[..] == Decompress(str).value.attribs
    ensures r.Ok? ==> r.value.indices[..] == Decompress(str).value.indices
  {
    if |str| == 0 {
      // charCodeAt(0) is NaN: the Float32Array gets length zero, the eight
      // channel passes have empty inner loops and leave offset NaN, so the
      // Uint16Array gets length zero too and the index loop does not run.
      var empty := new int[0];
      var none := new Uint16[0];
      return Ok(Buffers(empty, none));
    }
    var numVerts: int := str[0];
    if numVerts >= BiasThreshold {
      numVerts := numVerts - Bias;
    }
    numVerts := numVerts + 1;
    assert numVerts == VertexCount(str[0]);
    if |str| < IndexRegionStart(numVerts) {
      // The attribute loops run over missing units, then `new Uint16Array` of
      // a negative length throws a RangeError.
      return Err(TruncatedStream);
    }

    var attribs := new int[8 * numVerts](_ => 0);
    var offset := 1;
    for i := 0 to 8
      invariant offset == ChannelStart(numVerts, i)
      invariant forall p :: 0 <= p < attribs.Length ==>
                  attribs[p] == if p % 8 < i then Cell(str, numVerts, p) else 0
    {
      ChannelLayout(numVerts, i, 0);
      DecodeChannel(str, numVerts, i, offset, attribs);
      offset := offset + numVerts;
    }

    var numIndices := |str| - offset;
    var indices := new Uint16[numIndices](_ => 0);
    DecodeIndices(str, offset, indices);
    r := Ok(Buffers(attribs, indices));
  }

  /**
   * The inner attribute loop for channel `i`: walks the channel's units from
   * `offset`, keeps the running total `prevAttrib`, and writes vertex `j`'s
   * value into cell `8*j + i`; cells of the other channels keep their values.
   */
  method DecodeChannel(str: seq<CodeUnit>, numVerts: nat, i: nat, offset: nat, attribs: array<int>)
    requires i < 8 && offset == ChannelStart(numVerts, i) && IndexRegionStart(numVerts) <= |str|
    requires attribs.Length == 8 * numVerts
    modifies attribs
    ensures forall p :: 0 <= p < attribs.Length ==>
              attribs[p] == if p % 8 == i then Cell(str, numVerts, p) else old(attribs[p])
  {
    var prevAttrib := 0;
    for j := 0 to numVerts
      invariant forall p :: 0 <= p < attribs.Length ==>
                  attribs[p] == if p % 8 == i && p / 8 < j then Cell(str, numVerts, p) else old(attribs[p])
      invariant prevAttrib == if j == 0 then 0 else AttributeValue(str, numVerts, i, j - 1)
    {
      ChannelLayout(numVerts, i, j);
      CellOfVertex(numVerts, i, j);
      var code := str[j + offset];
      prevAttrib := prevAttrib + ZigZag(code);
      AttributeValueStep(str, numVerts, i, j);
      assert prevAttrib == Cell(str, numVerts, 8 * j + i);
      attribs[8 * j + i] := prevAttrib;
    }
  }

  /**
   * The index loop: token `k` at `offset + k` becomes the high-water mark minus
   * its code, stored modulo 2^16; a zero code raises the mark by one.
   */
  method DecodeIndices(str: seq<CodeUnit>, offset: nat, indices: array<Uint16>)
    requires offset <= |str| && indices.Length == |str| - offset
    modifies indices
    ensures forall k :: 0 <= k < indices.Length ==> indices[k] == IndexValue(str[offset..], k)
  {
    ghost var tokens := str[offset..];
    var indexHighWaterMark: int := 0;
    for k := 0 to indices.Length
      invariant indexHighWaterMark == ZeroCount(tokens[..k])
      invariant forall m :: 0 <= m < k ==> indices[m] == IndexValue(tokens, m)
    {
      var code := str[k + offset];
      indices[k] := ToUint16(indexHighWaterMark - code);
      ZeroCountStep(tokens, k);
      if code == 0 {
        indexHighWaterMark := indexHighWaterMark + 1;
      }
    }
  }

}
