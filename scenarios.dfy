/** Small streams decoded by hand: one vertex, and two vertices. */
module MeshScenarios {
  import opened Outcomes
  import opened MeshFormat
  import opened MeshSpec

  /** Header 0 (one vertex) and eight zero channel units. */
  function OneZeroVertex(): seq<CodeUnit> {
    seq(9, _ => 0)
  }

  lemma OneZeroVertexAttributes(tokens: seq<CodeUnit>)
    ensures Decompress(OneZeroVertex() + tokens).Ok?
    ensures Decompress(OneZeroVertex() + tokens).value.attribs == [0, 0, 0, 0, 0, 0, 0, 0]
  {
    var str := OneZeroVertex() + tokens;
    assert str[0] == 0;
    var r := Decompress(str);
    forall p | 0 <= p < 8
      ensures r.value.attribs[p] == 0
    {
      AttributeValueStep(str, 1, p, 0);
    }
  }

  /** Three new-vertex tokens decode to 0, 1, 2: each zero introduces the next vertex. */
  lemma ThreeNewVertexTokens()
    ensures Decompress(OneZeroVertex() + [0, 0, 0]) == Ok(Mesh([0, 0, 0, 0, 0, 0, 0, 0], [0, 1, 2]))
  {
    var str := OneZeroVertex() + [0, 0, 0];
    OneZeroVertexAttributes([0, 0, 0]);
    var tokens := IndexTokens(str, 1);
    assert tokens == [0, 0, 0];
    assert tokens[..0] == [];
    ZeroCountStep(tokens, 0);
    ZeroCountStep(tokens, 1);
    assert Decompress(str).value.indices == [0, 1, 2];
  }

  /** One vertex, all-zero channels, and a degenerate triangle on vertex 0: tokens 0, 1, 1. */
  lemma SingleVertexTriangle()
    ensures Decompress(OneZeroVertex() + [0, 1, 1]) == Ok(Mesh([0, 0, 0, 0, 0, 0, 0, 0], [0, 0, 0]))
  {
    var str := OneZeroVertex() + [0, 1, 1];
    OneZeroVertexAttributes([0, 1, 1]);
    var tokens := IndexTokens(str, 1);
    assert tokens == [0, 1, 1];
    assert tokens[..0] == [];
    ZeroCountStep(tokens, 0);
    ZeroCountStep(tokens, 1);
    assert Decompress(str).value.indices == [0, 0, 0];
  }

  /** Header 1 means two vertices; deltas +1, 0 on the x channel give x = 1 at both. */
  lemma TwoVertexPositions()
    ensures Decompress([1, 2, 0, 0, 0, 0, 0, 0, 0, 0, 0, 0, 0, 0, 0, 0, 0]).Ok?
    ensures Decompress([1, 2, 0, 0, 0, 0, 0, 0, 0, 0, 0, 0, 0, 0, 0, 0, 0]).value.attribs[0] == 1
    ensures Decompress([1, 2, 0, 0, 0, 0, 0, 0, 0, 0, 0, 0, 0, 0, 0, 0, 0]).value.attribs[8] == 1
  {
    var str: seq<CodeUnit> := [1, 2, 0, 0, 0, 0, 0, 0, 0, 0, 0, 0, 0, 0, 0, 0, 0];
    assert VertexCount(str[0]) == 2;
    var r := Decompress(str);
    assert r.Ok?;
    AttributeValueStep(str, 2, 0, 0);
    AttributeValueStep(str, 2, 0, 1);
    CellOfVertex(2, 0, 1);
    assert r.value.attribs[0] == Cell(str, 2, 0) == AttributeValue(str, 2, 0, 0);
    assert r.value.attribs[8] == Cell(str, 2, 8) == AttributeValue(str, 2, 0, 1);
  }

}
