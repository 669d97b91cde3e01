/** What the OBJ loader library hands back, and the regrouping of a shape's
    flat index list into one index list per face. */
module ObjFaces {

  /** `tinyobj::index_t`: one corner of a face. */
  datatype Index = Index(vertexIndex: int, normalIndex: int, texcoordIndex: int)

  /** The `mesh` of a `tinyobj::shape_t`: the corners of all faces one after
      the other, and how many corners each face has. */
  datatype ShapeMesh = ShapeMesh(indices: seq<Index>, numFaceVertices: seq<nat>)

  /** Everything `ParseObjFile` reads back from `tinyobj::LoadObj`: its
      return value, its error text, `attrib.vertices` (x, y, z triplets) and
      the shapes. */
  datatype LoadResult = LoadResult(ret: bool, err: string, vertices: seq<real>, shapes: seq<ShapeMesh>)

  /** The sum of a sequence of counts. */
  function Sum(counts: seq<nat>): nat
  {
    if counts == [] then 0 else counts[0] + Sum(counts[1..])
  }

  /** The shape lists at least as many corners as its faces use up, so
      `indices[indexOffset + v]` stays in bounds. */
  predicate Covered(s: ShapeMesh)
  {
    Sum(s.numFaceVertices) <= |s.indices|
  }

  predicate AllCovered(shapes: seq<ShapeMesh>)
  {
    forall s :: s in shapes ==> Covered(s)
  }

  /** The `vertex_index` field of each corner, in order. */
  function VertexIndices(indices: seq<Index>): (r: seq<int>)
    ensures |r| == |indices|
    ensures forall i :: 0 <= i < |indices| ==> r[i] == indices[i].vertexIndex
  {
    seq(|indices|, i requires 0 <= i < |indices| => indices[i].vertexIndex)
  }

  /** `xs` cut into consecutive pieces of the given lengths, from the front. */
  function Chunks(counts: seq<nat>, xs: seq<int>): seq<seq<int>>
    requires Sum(counts) <= |xs|
  {
    if counts == [] then []
    else [xs[..counts[0]]] + Chunks(counts[1..], xs[counts[0]..])
  }

  /** The faces of one shape. */
  function ShapeFaces(s: ShapeMesh): seq<seq<int>>
    requires Covered(s)
  {
    Chunks(s.numFaceVertices, VertexIndices(s.indices))
  }

  /** The faces of all shapes, shape after shape. */
  function FaceList(shapes: seq<ShapeMesh>): seq<seq<int>>
    requires AllCovered(shapes)
  {
    if shapes == [] then [] else ShapeFaces(shapes[0]) + FaceList(shapes[1..])
  }

  /** The number of faces the shapes declare. */
  function DeclaredFaces(shapes: seq<ShapeMesh>): nat
  {
    if shapes == [] then 0 else |shapes[0].numFaceVertices| + DeclaredFaces(shapes[1..])
  }

  /** The pieces put back together. */
  function Flatten(pieces: seq<seq<int>>): seq<int>
  {
    if pieces == [] then [] else pieces[0] + Flatten(pieces[1..])
  }

  lemma {:induction false} SumAppend(a: seq<nat>, b: seq<nat>)
    ensures Sum(a + b) == Sum(a) + Sum(b)
  {
    if a == [] {
      assert a + b == b;
    } else {
      assert (a + b)[1..] == a[1..] + b;
      SumAppend(a[1..], b);
    }
  }

  /** The running offset: the counts before face `f` add up to where face
      `f` starts, and face `f` ends within the total. */
  lemma SumPrefix(counts: seq<nat>, f: nat)
    requires f < |counts|
    ensures Sum(counts[..f + 1]) == Sum(counts[..f]) + counts[f]
    ensures Sum(counts[..f]) + counts[f] <= Sum(counts)
  {
    assert counts[..f + 1] == counts[..f] + [counts[f]];
    SumAppend(counts[..f], [counts[f]]);
    assert counts == counts[..f + 1] + counts[f + 1..];
    SumAppend(counts[..f + 1], counts[f + 1..]);
  }

  /** Cutting by `a + b` is cutting by `a` and then cutting what is left
      by `b`. */
  lemma {:induction false} ChunksAppend(a: seq<nat>, b: seq<nat>, xs: seq<int>)
    requires Sum(a + b) <= |xs|
    ensures Sum(a) <= |xs| && Sum(b) <= |xs| - Sum(a)
    ensures Chunks(a + b, xs) == Chunks(a, xs) + Chunks(b, xs[Sum(a)..])
  {
    SumAppend(a, b);
    if a == [] {
      assert a + b == b;
      assert xs[Sum(a)..] == xs;
    } else {
      var c := a[0];
      var ys := xs[c..];
      assert (a + b)[0] == c;
      assert (a + b)[1..] == a[1..] + b;
      SumAppend(a[1..], b);
      assert Chunks(a + b, xs) == [xs[..c]] + Chunks(a[1..] + b, ys);
      ChunksAppend(a[1..], b, ys);
      assert ys[Sum(a[1..])..] == xs[Sum(a)..];
      assert Chunks(a, xs) == [xs[..c]] + Chunks(a[1..], ys);
    }
  }

  lemma {:induction false} FaceListAppend(a: seq<ShapeMesh>, b: seq<ShapeMesh>)
    requires AllCovered(a) && AllCovered(b)
    ensures AllCovered(a + b)
    ensures FaceList(a + b) == FaceList(a) + FaceList(b)
  {
    if a == [] {
      assert a + b == b;
    } else {
      assert (a + b)[1..] == a[1..] + b;
      FaceListAppend(a[1..], b);
    }
  }

  /** The faces of the first `s + 1` shapes: those of the first `s`, then
      those of shape `s`. */
  lemma FaceListSnoc(shapes: seq<ShapeMesh>, s: nat)
    requires AllCovered(shapes) && s < |shapes|
    ensures AllCovered(shapes[..s]) && AllCovered(shapes[..s + 1])
    ensures FaceList(shapes[..s + 1]) == FaceList(shapes[..s]) + ShapeFaces(shapes[s])
  {
    assert shapes[..s + 1] == shapes[..s] + [shapes[s]];
    FaceListAppend(shapes[..s], [shapes[s]]);
  }

  /** One piece per count. */
  lemma {:induction false} ChunkCount(counts: seq<nat>, xs: seq<int>)
    requires Sum(counts) <= |xs|
    ensures |Chunks(counts, xs)| == |counts|
  {
    if counts != [] {
      ChunkCount(counts[1..], xs[counts[0]..]);
    }
  }

  /** Piece `f` is the `counts[f]` elements that start at the sum of the
      counts before it. */
  lemma {:induction false} ChunkAt(counts: seq<nat>, xs: seq<int>, f: nat)
    requires Sum(counts) <= |xs| && f < |counts|
    ensures |Chunks(counts, xs)| == |counts|
    ensures Sum(counts[..f]) + counts[f] <= |xs|
    ensures Chunks(counts, xs)[f] == xs[Sum(counts[..f])..Sum(counts[..f]) + counts[f]]
  {
    ChunkCount(counts, xs);
    SumPrefix(counts, f);
    var c := counts[0];
    var ys := xs[c..];
    var later := counts[1..];
    assert Chunks(counts, xs) == [xs[..c]] + Chunks(later, ys);
    if f == 0 {
      assert counts[..0] == [];
    } else {
      ChunkAt(later, ys, f - 1);
      var k := Sum(later[..f - 1]);
      assert counts[..f] == [c] + later[..f - 1];
      SumAppend([c], later[..f - 1]);
      assert [c][1..] == [];
      assert Sum(counts[..f]) == c + k;
      assert later[f - 1] == counts[f];
      assert Chunks(counts, xs)[f] == Chunks(later, ys)[f - 1];
      assert ys[k..k + counts[f]] == xs[c + k..c + k + counts[f]];
    }
  }

  /** The pieces are determined by their positions: a list with one entry
      per count whose entry `f` is the slice at the running offset is the
      list of pieces, and only it. */
  lemma ChunksByPosition(counts: seq<nat>, xs: seq<int>, faces: seq<seq<int>>)
    requires Sum(counts) <= |xs|
    ensures (|faces| == |counts| &&
             forall f :: 0 <= f < |counts| ==>
               Sum(counts[..f]) + counts[f] <= |xs| && faces[f] == xs[Sum(counts[..f])..Sum(counts[..f]) + counts[f]])
            <==> faces == Chunks(counts, xs)
  {
    var pieces := Chunks(counts, xs);
    ChunkCount(counts, xs);
    forall f | 0 <= f < |counts|
      ensures Sum(counts[..f]) + counts[f] <= |xs|
      ensures pieces[f] == xs[Sum(counts[..f])..Sum(counts[..f]) + counts[f]]
    {
      ChunkAt(counts, xs, f);
    }
    if |faces| == |counts| &&
       forall f :: 0 <= f < |counts| ==>
         Sum(counts[..f]) + counts[f] <= |xs| && faces[f] == xs[Sum(counts[..f])..Sum(counts[..f]) + counts[f]]
    {
      assert forall f :: 0 <= f < |faces| ==> faces[f] == pieces[f];
      assert faces == pieces;
    }
  }

  /** Regrouping loses and reorders nothing: the pieces put back together
      are the elements the counts cover. */
  lemma {:induction false} FlattenChunks(counts: seq<nat>, xs: seq<int>)
    requires Sum(counts) <= |xs|
    ensures Flatten(Chunks(counts, xs)) == xs[..Sum(counts)]
  {
    if counts != [] {
      FlattenChunks(counts[1..], xs[counts[0]..]);
      assert xs[..counts[0]] + xs[counts[0]..][..Sum(counts[1..])] == xs[..Sum(counts)];
    }
  }

  /** The corners the faces of all shapes use: of each shape, as many
      vertex indices from the front as its counts add up to. */
  function UsedCorners(shapes: seq<ShapeMesh>): seq<int>
    requires AllCovered(shapes)
  {
    if shapes == [] then []
    else
      assert shapes[0] in shapes;
      VertexIndices(shapes[0].indices)[..Sum(shapes[0].numFaceVertices)] + UsedCorners(shapes[1..])
  }

  lemma {:induction false} FlattenAppend(a: seq<seq<int>>, b: seq<seq<int>>)
    ensures Flatten(a + b) == Flatten(a) + Flatten(b)
  {
    if a == [] {
      assert a + b == b;
    } else {
      assert (a + b)[1..] == a[1..] + b;
      FlattenAppend(a[1..], b);
    }
  }

  /** Over all shapes, the faces put back together are the used corners in
      their original order: no corner is lost, repeated or moved. */
  lemma {:induction false} FaceListCorners(shapes: seq<ShapeMesh>)
    requires AllCovered(shapes)
    ensures Flatten(FaceList(shapes)) == UsedCorners(shapes)
  {
    if shapes != [] {
      assert shapes[0] in shapes;
      FlattenAppend(ShapeFaces(shapes[0]), FaceList(shapes[1..]));
      FlattenChunks(shapes[0].numFaceVertices, VertexIndices(shapes[0].indices));
      FaceListCorners(shapes[1..]);
    }
  }

  /** There are as many faces as the shapes declare. */
  lemma {:induction false} FaceCount(shapes: seq<ShapeMesh>)
    requires AllCovered(shapes)
    ensures |FaceList(shapes)| == DeclaredFaces(shapes)
    ensures FaceList(shapes) == [] <==> forall s :: s in shapes ==> s.numFaceVertices == []
  {
    if shapes != [] {
      assert shapes[0] in shapes;
      ChunkCount(shapes[0].numFaceVertices, VertexIndices(shapes[0].indices));
      FaceCount(shapes[1..]);
      assert forall s :: s in shapes <==> s == shapes[0] || s in shapes[1..];
    }
  }

  /** A shape of two triangles over six corners gives two faces of three
      vertex indices each. */
  lemma TwoTriangles(a: Index, b: Index, c: Index, d: Index, e: Index, f: Index)
    ensures var s := ShapeMesh([a, b, c, d, e, f], [3, 3]);
      Covered(s) && FaceList([s]) == [[a.vertexIndex, b.vertexIndex, c.vertexIndex],
                                     [d.vertexIndex, e.vertexIndex, f.vertexIndex]]
  {
    var s := ShapeMesh([a, b, c, d, e, f], [3, 3]);
    var xs := VertexIndices(s.indices);
    assert [3, 3][1..] == [3] && [3][1..] == [];
    assert Sum([3, 3]) == 6;
    assert AllCovered([s]);
    assert Chunks([3], xs[3..]) == [xs[3..][..3]] + Chunks([], xs[3..][3..]);
    assert Chunks([3, 3], xs) == [xs[..3]] + Chunks([3], xs[3..]);
    assert xs[..3] == [a.vertexIndex, b.vertexIndex, c.vertexIndex];
    assert xs[3..][..3] == [d.vertexIndex, e.vertexIndex, f.vertexIndex];
    assert [s][1..] == [];
    assert FaceList([s]) == ShapeFaces(s) + FaceList([]);
  }
}
