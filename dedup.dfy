/**
 * Content-addressed vertex deduplication as a pure fold over the candidate
 * stream: the meaning of loadModel's loop body, one candidate at a time.
 * The state is the global vertex list, the global index list and the
 * loop's map from vertex value to assigned index.
 */
module Dedup {
  import opened Mesh

  const U32_LIMIT: int := 0x1_0000_0000

  /** uint32_t */
  type U32 = x: int | 0 <= x < U32_LIMIT

  /** static_cast<uint32_t> of a size_t: wraps modulo 2^32. */
  function ToU32(n: nat): (r: U32)
    ensures r <= n
    ensures n < U32_LIMIT ==> r == n
  {
    n % U32_LIMIT
  }

  datatype LoadState = LoadState(vertices: seq<Vertex>, indices: seq<U32>, unique: map<Vertex, U32>)

  /** The state loadModel starts from: the globals as they are, and an empty map. */
  function Start(vertices: seq<Vertex>, indices: seq<U32>): LoadState
  {
    LoadState(vertices, indices, map[])
  }

  /**
   * One iteration of the inner loop: a vertex the map does not know is
   * entered under the current size of the vertex list and appended;
   * then the index the map holds for it is appended to the index list.
   */
  function Step(st: LoadState, v: Vertex): (r: LoadState)
    ensures v in r.unique
    ensures r.indices == st.indices + [r.unique[v]]
    ensures v in st.unique ==> r.vertices == st.vertices && r.unique == st.unique
    ensures v !in st.unique ==>
              r.vertices == st.vertices + [v] && r.unique == st.unique[v := ToU32(|st.vertices|)]
  {
    var entered :=
      if v !in st.unique then
        LoadState(st.vertices + [v], st.indices, st.unique[v := ToU32(|st.vertices|)])
      else st;
    entered.(indices := entered.indices + [entered.unique[v]])
  }

  /** The state after processing every candidate of the stream in order. */
  function Fold(st: LoadState, stream: seq<Vertex>): LoadState
  {
    if stream == [] then st else Step(Fold(st, stream[..|stream| - 1]), stream[|stream| - 1])
  }

  lemma FoldSnoc(st: LoadState, stream: seq<Vertex>, v: Vertex)
    ensures Fold(st, stream + [v]) == Step(Fold(st, stream), v)
  {
    assert (stream + [v])[..|stream|] == stream;
  }

  /** One more candidate, spelled out field by field for the loop that performs it. */
  lemma FoldSnocFields(st: LoadState, stream: seq<Vertex>, v: Vertex)
    ensures var f := Fold(st, stream);
      Fold(st, stream + [v]) ==
        if v in f.unique then LoadState(f.vertices, f.indices + [f.unique[v]], f.unique)
        else LoadState(f.vertices + [v], f.indices + [ToU32(|f.vertices|)], f.unique[v := ToU32(|f.vertices|)])
  {
    FoldSnoc(st, stream, v);
  }

  /** Folding two streams one after the other is folding their concatenation. */
  lemma {:induction false} FoldAppend(st: LoadState, a: seq<Vertex>, b: seq<Vertex>)
    ensures Fold(st, a + b) == Fold(Fold(st, a), b)
    decreases |b|
  {
    if b == [] {
      assert a + b == a;
    } else {
      var init, v := b[..|b| - 1], b[|b| - 1];
      assert b == init + [v];
      assert a + b == (a + init) + [v];
      FoldSnoc(st, a + init, v);
      FoldAppend(st, a, init);
      FoldSnoc(Fold(st, a), init, v);
    }
  }

  /** The state loadModel leaves behind. */
  function Load(vertices: seq<Vertex>, indices: seq<U32>, stream: seq<Vertex>): LoadState
  {
    Fold(Start(vertices, indices), stream)
  }

  /**
   * Reference definition of the deduplicated list: the distinct elements of
   * the stream in order of first occurrence.
   */
  function FirstSeen(stream: seq<Vertex>): seq<Vertex>
  {
    if stream == [] then []
    else
      var init, last := stream[..|stream| - 1], stream[|stream| - 1];
      if last in init then FirstSeen(init) else FirstSeen(init) + [last]
  }

  ghost predicate Distinct(s: seq<Vertex>)
  {
    forall i, j :: 0 <= i < j < |s| ==> s[i] != s[j]
  }

  /** FirstSeen keeps exactly the values of the stream. */
  lemma {:induction false} FirstSeenMembers(stream: seq<Vertex>)
    ensures forall v :: v in FirstSeen(stream) <==> v in stream
  {
    if stream != [] {
      var init := stream[..|stream| - 1];
      FirstSeenMembers(init);
      assert stream == init + [stream[|stream| - 1]];
    }
  }

  /** FirstSeen keeps every value once. */
  lemma {:induction false} FirstSeenDistinct(stream: seq<Vertex>)
    ensures Distinct(FirstSeen(stream))
  {
    if stream != [] {
      var init := stream[..|stream| - 1];
      FirstSeenDistinct(init);
      FirstSeenMembers(init);
    }
  }

  /** A list with no repeated value is as long as its set of values is large. */
  lemma {:induction false} DistinctCardinality(s: seq<Vertex>)
    requires Distinct(s)
    ensures |set v | v in s| == |s|
  {
    if s != [] {
      var init, last := s[..|s| - 1], s[|s| - 1];
      assert Distinct(init);
      DistinctCardinality(init);
      assert (set v | v in s) == (set v | v in init) + {last} by {
        assert s == init + [last];
      }
      assert last !in init;
    }
  }

  /** FirstSeen is as long as the stream has distinct values. */
  lemma FirstSeenCount(stream: seq<Vertex>)
    ensures |FirstSeen(stream)| == |set v | v in stream|
  {
    FirstSeenDistinct(stream);
    FirstSeenMembers(stream);
    DistinctCardinality(FirstSeen(stream));
    assert (set v | v in FirstSeen(stream)) == (set v | v in stream);
  }

  /**
   * What the loop keeps true after processing `seen` from the globals
   * (vertices0, indices0), in four parts.
   */
  ghost predicate Invariant(vertices0: seq<Vertex>, indices0: seq<U32>, seen: seq<Vertex>, st: LoadState)
  {
    && Appended(vertices0, indices0, seen, st)
    && KeysSeen(seen, st)
    && Positions(|vertices0|, st)
    && Pushed(|indices0|, seen, st)
  }

  /**
   * The globals are only appended to, the appended vertices are the
   * first-seen list of the stream so far, and one index is pushed per
   * candidate.
   */
  ghost predicate Appended(vertices0: seq<Vertex>, indices0: seq<U32>, seen: seq<Vertex>, st: LoadState)
  {
    && |vertices0| <= |st.vertices| && st.vertices[..|vertices0|] == vertices0
    && st.vertices[|vertices0|..] == FirstSeen(seen)
    && |st.indices| == |indices0| + |seen| && st.indices[..|indices0|] == indices0
  }

  /** The map holds exactly the values seen so far. */
  ghost predicate KeysSeen(seen: seq<Vertex>, st: LoadState)
  {
    forall v :: v in st.unique <==> v in seen
  }

  /** Every appended vertex is in the map under its (wrapped) position. */
  ghost predicate Positions(base: nat, st: LoadState)
  {
    forall p :: base <= p < |st.vertices| ==> st.vertices[p] in st.unique && st.unique[st.vertices[p]] == ToU32(p)
  }

  /** The index pushed for the k-th candidate is the one the map holds for it. */
  ghost predicate Pushed(base: nat, seen: seq<Vertex>, st: LoadState)
  {
    forall k :: 0 <= k < |seen| ==>
      seen[k] in st.unique && base + k < |st.indices| && st.indices[base + k] == st.unique[seen[k]]
  }

  lemma InvariantStart(vertices0: seq<Vertex>, indices0: seq<U32>)
    ensures Invariant(vertices0, indices0, [], Start(vertices0, indices0))
  {
  }

  /** One step keeps the invariant. */
  lemma InvariantStep(vertices0: seq<Vertex>, indices0: seq<U32>, stream: seq<Vertex>)
    requires stream != []
    requires Invariant(vertices0, indices0, stream[..|stream| - 1], Load(vertices0, indices0, stream[..|stream| - 1]))
    ensures Invariant(vertices0, indices0, stream, Load(vertices0, indices0, stream))
  {
    var init, v := stream[..|stream| - 1], stream[|stream| - 1];
    var st := Load(vertices0, indices0, init);
    assert stream == init + [v];
    StepAppended(vertices0, indices0, init, st, v);
    StepKeys(init, st, v);
    StepPositions(|vertices0|, st, v);
    StepPushed(|indices0|, init, st, v);
  }

  /** A vertex is appended exactly when it was not seen before. */
  lemma StepAppended(vertices0: seq<Vertex>, indices0: seq<U32>, seen: seq<Vertex>, st: LoadState, v: Vertex)
    requires Appended(vertices0, indices0, seen, st) && KeysSeen(seen, st)
    ensures Appended(vertices0, indices0, seen + [v], Step(st, v))
  {
    var r := Step(st, v);
    var seen' := seen + [v];
    var base := |vertices0|;
    assert seen'[..|seen|] == seen;
    assert r.indices[..|indices0|] == st.indices[..|indices0|];
    if v in st.unique {
      assert FirstSeen(seen') == FirstSeen(seen);
    } else {
      assert FirstSeen(seen') == FirstSeen(seen) + [v];
      assert r.vertices[base..] == st.vertices[base..] + [v];
      assert r.vertices[..base] == st.vertices[..base];
    }
  }

  lemma StepKeys(seen: seq<Vertex>, st: LoadState, v: Vertex)
    requires KeysSeen(seen, st)
    ensures KeysSeen(seen + [v], Step(st, v))
  {
  }

  lemma StepPositions(base: nat, st: LoadState, v: Vertex)
    requires base <= |st.vertices| && Positions(base, st)
    ensures Positions(base, Step(st, v))
  {
    var r := Step(st, v);
    if v !in st.unique {
      forall p | base <= p < |r.vertices|
        ensures r.vertices[p] in r.unique && r.unique[r.vertices[p]] == ToU32(p)
      {
        if p < |st.vertices| {
          assert r.vertices[p] == st.vertices[p];
        }
      }
    }
  }

  lemma StepPushed(base: nat, seen: seq<Vertex>, st: LoadState, v: Vertex)
    requires |st.indices| == base + |seen| && Pushed(base, seen, st)
    ensures Pushed(base, seen + [v], Step(st, v))
  {
    var r := Step(st, v);
    var seen' := seen + [v];
    forall k | 0 <= k < |seen'|
      ensures seen'[k] in r.unique && base + k < |r.indices| && r.indices[base + k] == r.unique[seen'[k]]
    {
      if k < |seen| {
        assert seen'[k] == seen[k];
      }
    }
  }

  lemma {:induction false} FoldInvariant(vertices0: seq<Vertex>, indices0: seq<U32>, stream: seq<Vertex>)
    ensures Invariant(vertices0, indices0, stream, Load(vertices0, indices0, stream))
  {
    if stream == [] {
      InvariantStart(vertices0, indices0);
    } else {
      FoldInvariant(vertices0, indices0, stream[..|stream| - 1]);
      InvariantStep(vertices0, indices0, stream);
    }
  }

  /**
   * The globals are only appended to: the old vertices and indices are
   * prefixes of the new ones, and the index list grows by exactly one entry
   * per candidate.
   */
  lemma LoadAppends(vertices0: seq<Vertex>, indices0: seq<U32>, stream: seq<Vertex>)
    ensures var r := Load(vertices0, indices0, stream);
      && vertices0 <= r.vertices
      && indices0 <= r.indices
      && |r.indices| == |indices0| + |stream|
  {
    FoldInvariant(vertices0, indices0, stream);
  }

  /** The appended vertices are the stream's distinct values in first-seen order. */
  lemma LoadFirstSeen(vertices0: seq<Vertex>, indices0: seq<U32>, stream: seq<Vertex>)
    ensures Load(vertices0, indices0, stream).vertices == vertices0 + FirstSeen(stream)
  {
    FoldInvariant(vertices0, indices0, stream);
    var r := Load(vertices0, indices0, stream);
    assert r.vertices == r.vertices[..|vertices0|] + r.vertices[|vertices0|..];
  }

  /** No two of the vertices appended by one load are equal. */
  lemma LoadDistinct(vertices0: seq<Vertex>, indices0: seq<U32>, stream: seq<Vertex>)
    ensures var r := Load(vertices0, indices0, stream);
      forall i, j :: |vertices0| <= i < j < |r.vertices| ==> r.vertices[i] != r.vertices[j]
  {
    FoldInvariant(vertices0, indices0, stream);
    FirstSeenDistinct(stream);
    var r := Load(vertices0, indices0, stream);
    var base := |vertices0|;
    forall i, j | base <= i < j < |r.vertices| ensures r.vertices[i] != r.vertices[j] {
      assert r.vertices[i] == r.vertices[base..][i - base];
      assert r.vertices[j] == r.vertices[base..][j - base];
    }
  }

  /** One load appends as many vertices as the stream has distinct values. */
  lemma LoadCount(vertices0: seq<Vertex>, indices0: seq<U32>, stream: seq<Vertex>)
    ensures |Load(vertices0, indices0, stream).vertices| == |vertices0| + |set v | v in stream|
  {
    LoadFirstSeen(vertices0, indices0, stream);
    FirstSeenCount(stream);
  }

  /**
   * Every index pushed by one load is below the final vertex count; the
   * wrap of the cast only ever makes an index smaller.
   */
  lemma LoadIndicesInBounds(vertices0: seq<Vertex>, indices0: seq<U32>, stream: seq<Vertex>)
    ensures var r := Load(vertices0, indices0, stream);
      forall k :: |indices0| <= k < |r.indices| ==> r.indices[k] < |r.vertices|
  {
    FoldInvariant(vertices0, indices0, stream);
    FirstSeenMembers(stream);
    var r := Load(vertices0, indices0, stream);
    var base := |vertices0|;
    forall k | |indices0| <= k < |r.indices| ensures r.indices[k] < |r.vertices| {
      var v := stream[k - |indices0|];
      assert v in r.vertices[base..];
      var p :| base <= p < |r.vertices| && r.vertices[p] == v;
    }
  }

  /**
   * Each map entry is the position of its vertex in the vertex list, as long
   * as that position fits in 32 bits.
   */
  lemma LoadMapPositions(vertices0: seq<Vertex>, indices0: seq<U32>, stream: seq<Vertex>)
    ensures var r := Load(vertices0, indices0, stream);
      && r.unique.Keys == set v | v in stream
      && forall p :: |vertices0| <= p < |r.vertices| && p < U32_LIMIT ==>
           r.vertices[p] in r.unique && r.unique[r.vertices[p]] == p
  {
    FoldInvariant(vertices0, indices0, stream);
  }

  /**
   * The index list reconstructs the candidate stream: when the vertex list
   * stays within 2^32 entries, the vertex at the index pushed for candidate
   * k is candidate k.
   */
  lemma LoadReconstructs(vertices0: seq<Vertex>, indices0: seq<U32>, stream: seq<Vertex>)
    ensures var r := Load(vertices0, indices0, stream);
      |r.indices| == |indices0| + |stream| &&
      (|r.vertices| <= U32_LIMIT ==>
        forall j :: |indices0| <= j < |r.indices| ==>
          r.indices[j] < |r.vertices| && r.vertices[r.indices[j]] == stream[j - |indices0|])
  {
    FoldInvariant(vertices0, indices0, stream);
    var r := Load(vertices0, indices0, stream);
    if |r.vertices| <= U32_LIMIT {
      forall j | |indices0| <= j < |r.indices|
        ensures r.indices[j] < |r.vertices| && r.vertices[r.indices[j]] == stream[j - |indices0|]
      {
        ReconstructsAt(vertices0, indices0, stream, r, j - |indices0|);
      }
    }
  }

  lemma ReconstructsAt(vertices0: seq<Vertex>, indices0: seq<U32>, stream: seq<Vertex>, r: LoadState, k: nat)
    requires Invariant(vertices0, indices0, stream, r) && |r.vertices| <= U32_LIMIT && k < |stream|
    ensures r.indices[|indices0| + k] < |r.vertices| && r.vertices[r.indices[|indices0| + k]] == stream[k]
  {
    var base := |vertices0|;
    FirstSeenMembers(stream);
    var v := stream[k];
    assert v in r.vertices[base..];
    var i :| 0 <= i < |r.vertices[base..]| && r.vertices[base..][i] == v;
    var p := base + i;
    assert r.vertices[p] == v;
    assert r.unique[v] == ToU32(p) == p;
    assert r.indices[|indices0| + k] == r.unique[v];
  }
}
