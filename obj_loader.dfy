/** The OBJ reading front end: file-name tests, the base directory handed to
    the loader library, and `ParseObjFile`, which copies the library's
    vertices and regroups its corner indices into faces. */
module ObjLoader {
  import opened Wrappers
  import opened Strings
  import opened ObjFaces

  /** `GetFileExtension`: the text after the last '.', lower-cased; empty
      when there is no '.' or the name ends with it. The search is over the
      whole string, not the last path component. */
  function GetFileExtension(filename: string): (ext: string)
    ensures ext == "" <==> '.' !in filename || filename[|filename| - 1] == '.'
    ensures ext != "" ==> |ext| < |filename| && filename[|filename| - |ext| - 1] == '.'
    ensures ext != "" ==> '.' !in filename[|filename| - |ext|..]
    ensures ext != "" ==> ext == LowerAscii(filename[|filename| - |ext|..])
  {
    match LastIndexIn(filename, {'.'})
    case None => ""
    case Some(dotPos) =>
      if dotPos == |filename| - 1 then ""
      else
        assert forall j :: dotPos < j < |filename| ==> filename[j] != '.';
        LowerAscii(filename[dotPos + 1..])
  }

  /** `IsObjFile`: the extension is "obj" in any letter case. */
  predicate IsObjFile(filename: string)
  {
    GetFileExtension(filename) == "obj"
  }

  /** `IsOffFile`: the extension is "off" in any letter case. */
  predicate IsOffFile(filename: string)
  {
    GetFileExtension(filename) == "off"
  }

  /** The characters `find_last_of("/\\")` looks for. */
  const PathSeparators: set<char> := {'/', '\\'}

  /** The base directory of `ParseObjFile`: everything up to and including
      the last '/' or '\', or nothing. */
  function BaseDirectory(filename: string): (dir: string)
    ensures dir <= filename
    ensures dir == "" <==> forall i :: 0 <= i < |filename| ==> filename[i] !in PathSeparators
    ensures dir != "" ==> dir[|dir| - 1] in PathSeparators
    ensures forall i :: |dir| <= i < |filename| ==> filename[i] !in PathSeparators
  {
    match LastIndexIn(filename, PathSeparators)
    case None => ""
    case Some(lastSlash) => filename[..lastSlash + 1]
  }

  /** The directory argument of `tinyobj::LoadObj`: null when the base
      directory is empty. */
  function MaterialDirectory(filename: string): (r: Option<string>)
    ensures r.None? <==> forall i :: 0 <= i < |filename| ==> filename[i] !in PathSeparators
    ensures r.Some? ==> r.value == BaseDirectory(filename) && r.value <= filename
  {
    var baseDir := BaseDirectory(filename);
    if baseDir == "" then None else Some(baseDir)
  }

  /** `tinyobj::LoadObj` called with the file name and the directory
      argument; its result is all this model sees of it. */
  type LoadObjCall = (string, Option<string>) -> LoadResult

  /** `struct ObjData`, filled in place by `ParseObjFile`. */
  class ObjData {
    var vertices: seq<real>
    var faces: seq<seq<int>>

    constructor ()
      ensures vertices == [] && faces == []
    {
      vertices := [];
      faces := [];
    }
  }

  /** The `error` text `ParseObjFile` leaves behind when the loader fails:
      the loader's message, else what the caller's string already held,
      else a message naming the file. */
  function LoadFailureMessage(filename: string, err: string, errorIn: string): (m: string)
    ensures m != ""
    ensures err != "" ==> m == err
    ensures err == "" && errorIn != "" ==> m == errorIn
    ensures err == "" && errorIn == "" ==> m == "Failed to load OBJ file: " + filename
  {
    if err != "" then err
    else if errorIn != "" then errorIn
    else "Failed to load OBJ file: " + filename
  }

  /** The innermost loop of `ParseObjFile`: the vertex indices of the `fv`
      corners that start at `indexOffset`. */
  method ReadFace(indices: seq<Index>, indexOffset: nat, fv: nat) returns (face: seq<int>)
    requires indexOffset + fv <= |indices|
    ensures |face| == fv
    ensures forall w :: 0 <= w < fv ==> face[w] == indices[indexOffset + w].vertexIndex
  {
    face := [];
    var w := 0;
    while w < fv
      invariant 0 <= w <= fv
      invariant |face| == w
      invariant forall u :: 0 <= u < w ==> face[u] == indices[indexOffset + u].vertexIndex
    {
      face := face + [indices[indexOffset + w].vertexIndex];
      w := w + 1;
    }
  }

  /** The loop over the faces of one shape in `ParseObjFile`: each face
      takes the next `num_face_vertices[f]` corners. */
  method AppendShapeFaces(data: ObjData, shape: ShapeMesh)
    requires Covered(shape)
    modifies data
    ensures data.vertices == old(data.vertices)
    ensures data.faces == old(data.faces) + ShapeFaces(shape)
  {
    ghost var corners := VertexIndices(shape.indices);
    ghost var shapeFaces: seq<seq<int>> := [];
    var counts := shape.numFaceVertices;
    var indexOffset := 0;
    var f := 0;
    while f < |counts|
      invariant 0 <= f <= |counts|
      invariant indexOffset == Sum(counts[..f]) <= Sum(counts)
      invariant |shapeFaces| == f
      invariant forall g :: 0 <= g < f ==>
                  Sum(counts[..g]) + counts[g] <= |corners| &&
                  shapeFaces[g] == corners[Sum(counts[..g])..Sum(counts[..g]) + counts[g]]
      invariant data.vertices == old(data.vertices)
      invariant data.faces == old(data.faces) + shapeFaces
    {
      var fv := counts[f];
      SumPrefix(counts, f);
      var face := ReadFace(shape.indices, indexOffset, fv);
      assert face == corners[indexOffset..indexOffset + fv];
      data.faces := data.faces + [face];
      shapeFaces := shapeFaces + [face];
      indexOffset := indexOffset + fv;
      f := f + 1;
    }
    ChunksByPosition(counts, corners, shapeFaces);
  }

  /** The vertex loop of `ParseObjFile`: the coordinates are appended one
      by one, in order. */
  method CopyVertices(data: ObjData, coordinates: seq<real>)
    modifies data
    ensures data.vertices == old(data.vertices) + coordinates
    ensures data.faces == old(data.faces)
  {
    var v := 0;
    while v < |coordinates|
      invariant 0 <= v <= |coordinates|
      invariant data.vertices == old(data.vertices) + coordinates[..v]
      invariant data.faces == old(data.faces)
    {
      data.vertices := data.vertices + [coordinates[v]];
      v := v + 1;
    }
    assert coordinates[..v] == coordinates;
  }

  /** The shape loop of `ParseObjFile`: the faces of every shape are
      appended, shape after shape. */
  method CollectFaces(data: ObjData, shapes: seq<ShapeMesh>)
    requires AllCovered(shapes)
    modifies data
    ensures data.vertices == old(data.vertices)
    ensures data.faces == old(data.faces) + FaceList(shapes)
  {
    var s := 0;
    while s < |shapes|
      invariant 0 <= s <= |shapes|
      invariant AllCovered(shapes[..s])
      invariant data.vertices == old(data.vertices)
      invariant data.faces == old(data.faces) + FaceList(shapes[..s])
    {
      assert shapes[s] in shapes;
      AppendShapeFaces(data, shapes[s]);
      FaceListSnoc(shapes, s);
      s := s + 1;
    }
    assert shapes[..s] == shapes;
  }

  /** `ParseObjFile(filename, data, error)`: `errorIn` is what `error` held
      on entry and `error` what it holds on exit. */
  method ParseObjFile(filename: string, loadObj: LoadObjCall, data: ObjData, errorIn: string)
      returns (ok: bool, error: string)
    requires var r := loadObj(filename, MaterialDirectory(filename));
      r.ret && r.vertices != [] ==> AllCovered(r.shapes)
    modifies data
    ensures var r := loadObj(filename, MaterialDirectory(filename));
      && (!r.ret ==>
            !ok && error == LoadFailureMessage(filename, r.err, errorIn)
            && data.vertices == old(data.vertices) && data.faces == old(data.faces))
      && (r.ret && r.vertices == [] ==>
            !ok && error == "OBJ file contains no vertices"
            && data.vertices == old(data.vertices) && data.faces == old(data.faces))
      && (r.ret && r.vertices != [] ==>
            && data.vertices == old(data.vertices) + r.vertices
            && data.faces == old(data.faces) + FaceList(r.shapes)
            && ok == (data.faces != [])
            && error == (if !ok then "OBJ file contains no faces" else if r.err != "" then r.err else errorIn))
  {
    var baseDir := "";
    var lastSlash := LastIndexIn(filename, PathSeparators);
    if lastSlash.Some? {
      baseDir := filename[..lastSlash.value + 1];
    }
    assert baseDir == BaseDirectory(filename);
    var loaded := loadObj(filename, if baseDir == "" then None else Some(baseDir));
    assert loaded == loadObj(filename, MaterialDirectory(filename));

    error := errorIn;
    if loaded.err != "" {
      error := loaded.err;
    }
    if !loaded.ret {
      if error == "" {
        error := "Failed to load OBJ file: " + filename;
      }
      return false, error;
    }
    if loaded.vertices == [] {
      return false, "OBJ file contains no vertices";
    }

    CopyVertices(data, loaded.vertices);
    CollectFaces(data, loaded.shapes);

    if data.faces == [] {
      return false, "OBJ file contains no faces";
    }
    ok := true;
  }

  /** The extension test, stated on the name itself: `e` (non-empty, without
      '.') is the extension exactly when the name ends in '.' followed by
      characters that lower-case to `e`. */
  lemma HasExtension(filename: string, e: string)
    requires e != "" && '.' !in e
    ensures GetFileExtension(filename) == e <==>
              |e| < |filename| && filename[|filename| - |e| - 1] == '.' &&
              LowerAscii(filename[|filename| - |e|..]) == e
  {
    var n := |filename|;
    if |e| < n && filename[n - |e| - 1] == '.' && LowerAscii(filename[n - |e|..]) == e {
      var tail := filename[n - |e|..];
      forall j | n - |e| <= j < n
        ensures filename[j] != '.'
      {
        assert LowerAscii(tail)[j - (n - |e|)] == AsciiLower(filename[j]);
        LowerKeepsDots(filename[j]);
      }
      var r := LastIndexIn(filename, {'.'});
      assert r == Some(n - |e| - 1);
    }
  }

  /** `IsObjFile` and `IsOffFile` on the name itself: a '.' and three
      characters at the end, compared without regard to letter case; no
      name passes both. */
  lemma ObjAndOffSuffixes(filename: string)
    ensures IsObjFile(filename) <==>
              |filename| >= 4 && filename[|filename| - 4] == '.' && LowerAscii(filename[|filename| - 3..]) == "obj"
    ensures IsOffFile(filename) <==>
              |filename| >= 4 && filename[|filename| - 4] == '.' && LowerAscii(filename[|filename| - 3..]) == "off"
    ensures !(IsObjFile(filename) && IsOffFile(filename))
  {
    HasExtension(filename, "obj");
    HasExtension(filename, "off");
  }

  /** The last '.' sits at the same place after lower-casing. */
  lemma {:induction false} LastDotIgnoresCase(s: string)
    ensures LastIndexIn(LowerAscii(s), {'.'}) == LastIndexIn(s, {'.'})
    decreases |s|
  {
    if s != [] {
      var n := |s|;
      LowerKeepsDots(s[n - 1]);
      assert LowerAscii(s)[..n - 1] == LowerAscii(s[..n - 1]);
      LastDotIgnoresCase(s[..n - 1]);
    }
  }

  /** The extension does not depend on the letter case of the name. */
  lemma ExtensionIgnoresCase(filename: string)
    ensures GetFileExtension(LowerAscii(filename)) == GetFileExtension(filename)
  {
    var lower := LowerAscii(filename);
    LastDotIgnoresCase(filename);
    var r := LastIndexIn(filename, {'.'});
    assert LastIndexIn(lower, {'.'}) == r;
    if r.Some? && r.value < |filename| - 1 {
      var tail := filename[r.value + 1..];
      assert lower[r.value + 1..] == LowerAscii(tail);
      LowerAsciiIdempotent(tail);
    }
  }

  /** Case is folded: upper-case extensions are recognised. */
  lemma UpperCaseExtension()
    ensures GetFileExtension("model.OBJ") == "obj" && IsObjFile("model.OBJ")
    ensures GetFileExtension("mesh.Off") == "off" && IsOffFile("mesh.Off")
  {
    assert "model.OBJ"[6..] == "OBJ";
    assert LowerAscii("OBJ") == "obj";
    HasExtension("model.OBJ", "obj");
    assert "mesh.Off"[5..] == "Off";
    assert LowerAscii("Off") == "off";
    HasExtension("mesh.Off", "off");
  }

  /** Only the text after the last '.' counts, even when that '.' is in a
      directory name. */
  lemma LastDotExtension()
    ensures GetFileExtension("archive.tar.gz") == "gz"
    ensures GetFileExtension("a.b/c") == "b/c"
  {
    assert "archive.tar.gz"[12..] == "gz";
    assert LowerAscii("gz") == "gz";
    HasExtension("archive.tar.gz", "gz");
    assert "a.b/c"[2..] == "b/c";
    assert LowerAscii("b/c") == "b/c";
    HasExtension("a.b/c", "b/c");
  }

  /** No extension without a '.', or with a '.' as the last character. */
  lemma MissingExtension()
    ensures GetFileExtension("model.") == "" && GetFileExtension("model") == ""
  {
    assert "model."[5] == '.';
    assert forall i :: 0 <= i < |"model"| ==> "model"[i] != '.';
  }

  /** The base directory of names with and without separators. */
  lemma BaseDirectoryExamples()
    ensures BaseDirectory("models/cube.obj") == "models/"
    ensures BaseDirectory("C:\\data\\cube.obj") == "C:\\data\\"
    ensures BaseDirectory("a/b\\c") == "a/b\\"
    ensures BaseDirectory("cube.obj") == "" && MaterialDirectory("cube.obj") == None
  {
    assert "models/cube.obj"[6] == '/';
    assert "C:\\data\\cube.obj"[7] == '\\';
    assert "a/b\\c"[3] == '\\';
  }
}
