/**
 * The mesh data that loadModel reads and writes: the Vertex record, the
 * flat attribute arrays and per-shape index lists produced by the OBJ
 * parser, and the candidate vertex built for one face-vertex reference.
 *
 * Float components are modelled as reals: only their equality matters here.
 */
module Mesh {

  /** glm::vec4 */
  datatype Vec4 = Vec4(x: real, y: real, z: real, w: real)

  /** glm::vec2 */
  datatype Vec2 = Vec2(x: real, y: real)

  /**
   * The vertex record. Its operator== compares position, colour and
   * texcoord exactly, which is Dafny's structural equality on this datatype.
   */
  datatype Vertex = Vertex(position: Vec4, color: Vec4, texcoord: Vec2)

  /** One face-vertex reference of the parser (the two fields loadModel uses). */
  datatype ObjIndex = ObjIndex(vertexIndex: int, texcoordIndex: int)

  /** The parser's flat arrays: three floats per position, two per texcoord. */
  datatype Attrib = Attrib(vertices: seq<real>, texcoords: seq<real>)

  /** The face-vertex references of one shape, in file order. */
  type Shape = seq<ObjIndex>

  /** The constant colour given to every vertex: opaque white. */
  const WHITE := Vec4(1.0, 1.0, 1.0, 1.0)

  /** The reads of attrib.vertices and attrib.texcoords made for this reference stay in bounds. */
  predicate InBounds(attrib: Attrib, index: ObjIndex)
  {
    && 0 <= index.vertexIndex && 3 * index.vertexIndex + 2 < |attrib.vertices|
    && 0 <= index.texcoordIndex && 2 * index.texcoordIndex + 1 < |attrib.texcoords|
  }

  predicate ShapeInBounds(attrib: Attrib, shape: Shape)
  {
    forall i :: 0 <= i < |shape| ==> InBounds(attrib, shape[i])
  }

  predicate ShapesInBounds(attrib: Attrib, shapes: seq<Shape>)
  {
    forall s :: 0 <= s < |shapes| ==> ShapeInBounds(attrib, shapes[s])
  }

  /** The three position floats a reference points at. */
  function PositionOf(attrib: Attrib, index: ObjIndex): seq<real>
    requires InBounds(attrib, index)
  {
    attrib.vertices[3 * index.vertexIndex .. 3 * index.vertexIndex + 3]
  }

  /** The two texcoord floats a reference points at. */
  function TexcoordOf(attrib: Attrib, index: ObjIndex): seq<real>
    requires InBounds(attrib, index)
  {
    attrib.texcoords[2 * index.texcoordIndex .. 2 * index.texcoordIndex + 2]
  }

  /**
   * The vertex loadModel builds for one reference: position gathered with
   * w = 1, the texcoord pair, and the constant colour.
   */
  function Candidate(attrib: Attrib, index: ObjIndex): (v: Vertex)
    requires InBounds(attrib, index)
    ensures v.position.w == 1.0 && v.color == WHITE
    ensures [v.position.x, v.position.y, v.position.z] == PositionOf(attrib, index)
    ensures [v.texcoord.x, v.texcoord.y] == TexcoordOf(attrib, index)
  {
    var vi, ti := index.vertexIndex, index.texcoordIndex;
    Vertex(
      Vec4(attrib.vertices[3 * vi], attrib.vertices[3 * vi + 1], attrib.vertices[3 * vi + 2], 1.0),
      WHITE,
      Vec2(attrib.texcoords[2 * ti], attrib.texcoords[2 * ti + 1]))
  }

  /**
   * Two references give equal candidates exactly when they point at equal
   * position triples and equal texcoord pairs: the colour never tells two
   * candidates apart.
   */
  lemma CandidateEqual(attrib: Attrib, a: ObjIndex, b: ObjIndex)
    requires InBounds(attrib, a) && InBounds(attrib, b)
    ensures Candidate(attrib, a) == Candidate(attrib, b) <==>
              PositionOf(attrib, a) == PositionOf(attrib, b) && TexcoordOf(attrib, a) == TexcoordOf(attrib, b)
  {
    var va, vb := Candidate(attrib, a), Candidate(attrib, b);
    if PositionOf(attrib, a) == PositionOf(attrib, b) && TexcoordOf(attrib, a) == TexcoordOf(attrib, b) {
      var pa, pb := PositionOf(attrib, a), PositionOf(attrib, b);
      assert va.position.x == pa[0] == pb[0] == vb.position.x;
      assert va.position.y == pa[1] == pb[1] == vb.position.y;
      assert va.position.z == pa[2] == pb[2] == vb.position.z;
      var ta, tb := TexcoordOf(attrib, a), TexcoordOf(attrib, b);
      assert va.texcoord.x == ta[0] == tb[0] == vb.texcoord.x;
      assert va.texcoord.y == ta[1] == tb[1] == vb.texcoord.y;
    }
  }

  /** The candidates of one shape's references, in order. */
  function Candidates(attrib: Attrib, shape: Shape): (r: seq<Vertex>)
    requires ShapeInBounds(attrib, shape)
    ensures |r| == |shape|
    ensures forall i :: 0 <= i < |shape| ==> r[i] == Candidate(attrib, shape[i])
  {
    seq(|shape|, i requires 0 <= i < |shape| => Candidate(attrib, shape[i]))
  }

  /** The number of face-vertex references across all shapes. */
  function ReferenceCount(shapes: seq<Shape>): nat
  {
    if shapes == [] then 0 else ReferenceCount(shapes[..|shapes| - 1]) + |shapes[|shapes| - 1]|
  }

  /**
   * The candidate stream: the candidate of every reference of every shape,
   * shape after shape, each shape in its own order.
   */
  function Stream(attrib: Attrib, shapes: seq<Shape>): (r: seq<Vertex>)
    requires ShapesInBounds(attrib, shapes)
    ensures |r| == ReferenceCount(shapes)
  {
    if shapes == [] then []
    else
      var init := shapes[..|shapes| - 1];
      assert ShapesInBounds(attrib, init) by {
        forall s | 0 <= s < |init| ensures ShapeInBounds(attrib, init[s]) {
          assert init[s] == shapes[s];
        }
      }
      Stream(attrib, init) + Candidates(attrib, shapes[|shapes| - 1])
  }

  /** The first s shapes of in-bounds shapes are in bounds. */
  lemma PrefixInBounds(attrib: Attrib, shapes: seq<Shape>, s: nat)
    requires ShapesInBounds(attrib, shapes) && s <= |shapes|
    ensures ShapesInBounds(attrib, shapes[..s])
  {
    forall t | 0 <= t < s ensures ShapeInBounds(attrib, shapes[..s][t]) {
      assert shapes[..s][t] == shapes[t];
    }
  }

  /** Taking one more shape appends that shape's candidates to the stream. */
  lemma StreamSnoc(attrib: Attrib, shapes: seq<Shape>, s: nat)
    requires ShapesInBounds(attrib, shapes) && s < |shapes|
    ensures ShapesInBounds(attrib, shapes[..s]) && ShapesInBounds(attrib, shapes[..s + 1])
    ensures Stream(attrib, shapes[..s + 1]) == Stream(attrib, shapes[..s]) + Candidates(attrib, shapes[s])
  {
    PrefixInBounds(attrib, shapes, s);
    PrefixInBounds(attrib, shapes, s + 1);
    assert shapes[..s + 1][..s] == shapes[..s];
  }

  /**
   * Position k of the stream is the candidate of reference i of shape s,
   * where k counts the references of the shapes before s, plus i.
   */
  lemma {:induction false} StreamAt(attrib: Attrib, shapes: seq<Shape>, s: nat, i: nat)
    requires ShapesInBounds(attrib, shapes) && s < |shapes| && i < |shapes[s]|
    ensures ReferenceCount(shapes[..s]) + i < |Stream(attrib, shapes)|
    ensures Stream(attrib, shapes)[ReferenceCount(shapes[..s]) + i] == Candidate(attrib, shapes[s][i])
  {
    var n := |shapes|;
    var init := shapes[..n - 1];
    PrefixInBounds(attrib, shapes, n - 1);
    assert Stream(attrib, shapes) == Stream(attrib, init) + Candidates(attrib, shapes[n - 1]);
    if s == n - 1 {
      assert shapes[..s] == init;
    } else {
      assert init[s] == shapes[s];
      assert init[..s] == shapes[..s];
      StreamAt(attrib, init, s, i);
    }
    ReferenceCountPrefix(shapes, s);
  }

  /** The references before shape s are fewer than all references minus shape s's. */
  lemma {:induction false} ReferenceCountPrefix(shapes: seq<Shape>, s: nat)
    requires s < |shapes|
    ensures ReferenceCount(shapes[..s]) + |shapes[s]| <= ReferenceCount(shapes)
  {
    var n := |shapes|;
    var init := shapes[..n - 1];
    if s == n - 1 {
      assert shapes[..s] == init;
    } else {
      assert init[s] == shapes[s];
      assert init[..s] == shapes[..s];
      ReferenceCountPrefix(init, s);
    }
  }

  /** Shapes made of whole triangles give a multiple-of-three reference count. */
  lemma {:induction false} TrianglesGiveWholeTriangles(shapes: seq<Shape>)
    requires forall s :: 0 <= s < |shapes| ==> |shapes[s]| % 3 == 0
    ensures ReferenceCount(shapes) % 3 == 0
  {
    if shapes != [] {
      var init := shapes[..|shapes| - 1];
      assert forall s :: 0 <= s < |init| ==> init[s] == shapes[s];
      TrianglesGiveWholeTriangles(init);
    }
  }
}
