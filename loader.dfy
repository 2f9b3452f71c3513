/**
 * loadModel's deduplication loop over the program's two global buffers,
 * proved against the fold in module Dedup.
 */
module Loader {
  import opened Mesh
  import opened Dedup

  /** The global vertex and index buffers that loadModel appends to. */
  class Scene {
    var vertices: seq<Vertex>
    var indices: seq<U32>

    /** Both globals start out empty. */
    constructor ()
      ensures vertices == [] && indices == []
    {
      vertices, indices := [], [];
    }

    /**
     * Walks every reference of every shape in order, builds its candidate
     * vertex, appends the vertex when the call's map has not seen it, and
     * appends the resolved index. The map is local to the call; the two
     * globals are not cleared.
     */
    method LoadModel(attrib: Attrib, shapes: seq<Shape>)
      requires ShapesInBounds(attrib, shapes)
      modifies this
      ensures var r := Load(old(vertices), old(indices), Stream(attrib, shapes));
        vertices == r.vertices && indices == r.indices
      ensures old(vertices) <= vertices && old(indices) <= indices
      ensures |indices| == |old(indices)| + ReferenceCount(shapes)
      ensures vertices == old(vertices) + FirstSeen(Stream(attrib, shapes))
      ensures forall j :: |old(indices)| <= j < |indices| ==> indices[j] < |vertices|
    {
      ghost var vertices0, indices0 := vertices, indices;
      var uniqueVertices: map<Vertex, U32> := map[];
      var s := 0;
      while s < |shapes|
        invariant 0 <= s <= |shapes|
        invariant ShapesInBounds(attrib, shapes[..s])
        invariant LoadState(vertices, indices, uniqueVertices) == Load(vertices0, indices0, Stream(attrib, shapes[..s]))
      {
        var shape := shapes[s];
        ghost var entry := LoadState(vertices, indices, uniqueVertices);
        ghost var candidates := Candidates(attrib, shape);
        var i := 0;
        while i < |shape|
          invariant 0 <= i <= |shape|
          invariant LoadState(vertices, indices, uniqueVertices) == Fold(entry, candidates[..i])
        {
          var vertex := Candidate(attrib, shape[i]);
          FoldSnocFields(entry, candidates[..i], vertex);
          assert candidates[i] == vertex;
          TakeSnoc(candidates, i);
          if vertex !in uniqueVertices {
            uniqueVertices := uniqueVertices[vertex := ToU32(|vertices|)];
            vertices := vertices + [vertex];
          }
          indices := indices + [uniqueVertices[vertex]];
          i := i + 1;
        }
        assert candidates[..i] == candidates;
        StreamSnoc(attrib, shapes, s);
        FoldAppend(Start(vertices0, indices0), Stream(attrib, shapes[..s]), candidates);
        s := s + 1;
      }
      assert shapes[..s] == shapes;
      ghost var stream := Stream(attrib, shapes);
      LoadAppends(vertices0, indices0, stream);
      LoadFirstSeen(vertices0, indices0, stream);
      LoadIndicesInBounds(vertices0, indices0, stream);
    }
  }

  /** Taking one more element of a sequence appends that element. */
  lemma TakeSnoc<T>(xs: seq<T>, i: nat)
    requires i < |xs|
    ensures xs[..i + 1] == xs[..i] + [xs[i]]
  {
  }

  /** One vertex per corner of the example below: position (k, 0, 0). */
  function Corner(k: real): Vertex
  {
    Vertex(Vec4(k, 0.0, 0.0, 1.0), WHITE, Vec2(0.0, 0.0))
  }

  /** Six positions (k, 0, 0) for k = 0..5 and a single texcoord (0, 0). */
  const EXAMPLE_ATTRIB := Attrib(
    [0.0, 0.0, 0.0, 1.0, 0.0, 0.0, 2.0, 0.0, 0.0, 3.0, 0.0, 0.0, 4.0, 0.0, 0.0, 5.0, 0.0, 0.0],
    [0.0, 0.0])

  /** Three triangles (0,1,2), (2,3,4), (4,5,0) that share three corners. */
  const EXAMPLE_SHAPE: Shape :=
    [ObjIndex(0, 0), ObjIndex(1, 0), ObjIndex(2, 0),
     ObjIndex(2, 0), ObjIndex(3, 0), ObjIndex(4, 0),
     ObjIndex(4, 0), ObjIndex(5, 0), ObjIndex(0, 0)]

  const EXAMPLE_CORNERS := [Corner(0.0), Corner(1.0), Corner(2.0), Corner(2.0), Corner(3.0),
                            Corner(4.0), Corner(4.0), Corner(5.0), Corner(0.0)]

  /** The example's references are in bounds and their candidates are the corners in file order. */
  lemma ExampleStream()
    ensures ShapesInBounds(EXAMPLE_ATTRIB, [EXAMPLE_SHAPE])
    ensures Stream(EXAMPLE_ATTRIB, [EXAMPLE_SHAPE]) == EXAMPLE_CORNERS
  {
    var attrib, shape := EXAMPLE_ATTRIB, EXAMPLE_SHAPE;
    assert ShapeInBounds(attrib, shape);
    var shapes: seq<Shape> := [shape];
    assert shapes[..0] == [];
    var stream := Stream(attrib, shapes);
    assert stream == Candidates(attrib, shape);
    forall k | 0 <= k < 9 ensures stream[k] == EXAMPLE_CORNERS[k] {
      assert stream[k] == Candidate(attrib, shape[k]);
    }
  }

  /** The nine corners name six distinct vertices. */
  lemma ExampleCornersDistinct()
    ensures |set v | v in EXAMPLE_CORNERS| == 6
  {
    var corners := EXAMPLE_CORNERS;
    var distinct := [Corner(0.0), Corner(1.0), Corner(2.0), Corner(3.0), Corner(4.0), Corner(5.0)];
    DistinctCardinality(distinct);
    forall v | v in corners ensures v in distinct {
      var k :| 0 <= k < 9 && corners[k] == v;
    }
    forall v | v in distinct ensures v in corners {
      var k :| 0 <= k < 6 && distinct[k] == v;
      assert v == corners[[0, 1, 2, 4, 5, 7][k]];
    }
    assert (set v | v in corners) == (set v | v in distinct);
  }

  /**
   * Loading the three triangles into empty buffers keeps six vertices
   * and nine indices.
   */
  lemma SharedCornersExample()
    ensures ShapesInBounds(EXAMPLE_ATTRIB, [EXAMPLE_SHAPE])
    ensures |Load([], [], Stream(EXAMPLE_ATTRIB, [EXAMPLE_SHAPE])).vertices| == 6
    ensures |Load([], [], Stream(EXAMPLE_ATTRIB, [EXAMPLE_SHAPE])).indices| == 9
  {
    ExampleStream();
    ExampleCornersDistinct();
    LoadCount([], [], EXAMPLE_CORNERS);
    LoadAppends([], [], EXAMPLE_CORNERS);
  }
}
