/**
 * `carregarOBJParaDisplayList`: the caller's output vectors and display
 * list are the fields of an ObjMesh; Load clears them, reads the file line
 * by line, and on success fills them and compiles the display list.
 */
module ObjLoader {
  import opened Wrappers
  import opened Corner
  import opened Fans
  import opened Lexing
  import opened ObjParse
  import opened Normals
  import opened Emission

  /** The buffers the display list reads, for the pools a file parsed into. */
  function MeshOf(p: Pools, sqrt: real -> real): Mesh {
    Mesh(p.verts, VertexNormals(p.verts, p.idx, sqrt), p.vns, p.vts)
  }

  /** Every corner the file produced can be read from the final buffers. */
  lemma ParsedReadable(lines: seq<string>, sqrt: real -> real)
    ensures AllReadable(MeshOf(ParseLines(lines), sqrt), ParseLines(lines).tris)
  {
    var p := ParseLines(lines);
    ParseLinesWellFormed(lines);
    forall i | 0 <= i < |p.tris| ensures Readable(MeshOf(p, sqrt), p.tris[i]) {
      assert p.tris[i] in p.tris;
      assert CornerIn(p.tris[i], VCount(p), VtCount(p), VnCount(p));
    }
  }

  /**
   * The accumulation loop's bounds test never skips a triangle of a parsed
   * file: every stored position index lies inside `vertices`.
   */
  lemma ParsedTrianglesNeverSkipped(lines: seq<string>, t: nat)
    requires 3 * t + 2 < |ParseLines(lines).idx|
    ensures !TriangleOutOfRange(ParseLines(lines).verts, ParseLines(lines).idx[3 * t],
                             ParseLines(lines).idx[3 * t + 1], ParseLines(lines).idx[3 * t + 2])
  {
    ParseLinesWellFormed(lines);
  }

  /** The display list a successful load of `lines` compiles. */
  function LoadedList(lines: seq<string>, sqrt: real -> real): seq<GlCall> {
    ParsedReadable(lines, sqrt);
    DisplayList(MeshOf(ParseLines(lines), sqrt), ParseLines(lines).tris)
  }

  /** Whether a load of `lines` succeeds: some position and some position triangle. */
  predicate LoadSucceeds(lines: seq<string>) {
    ParseLines(lines).verts != [] && ParseLines(lines).idx != []
  }

  /**
   * A load fails exactly when the file has no `v` line, or no `f` line
   * with at least three corners that resolve to a position.
   */
  lemma LoadFailsIff(lines: seq<string>)
    ensures !LoadSucceeds(lines)
        <==> Count(lines, "v") == 0 || forall i :: 0 <= i < |lines| ==> !LineAddsPositionTriangles(lines, i)
  {
    PoolSizes(lines);
    NoPositionTriangles(lines);
  }

  class ObjMesh {
    var vertices: seq<real>
    var indicesPos: seq<nat>
    var normaisCalculadas: seq<real>
    var normaisOBJ: seq<real>
    var uvs: seq<real>
    var triangulos: seq<CantoTri>
    /** The contents of the list `displayListOut` names; None while it is 0. */
    var displayList: Option<seq<GlCall>>

    constructor ()
      ensures vertices == [] && indicesPos == [] && normaisCalculadas == []
      ensures normaisOBJ == [] && uvs == [] && triangulos == []
      ensures displayList == None
    {
      vertices, indicesPos, normaisCalculadas := [], [], [];
      normaisOBJ, uvs, triangulos := [], [], [];
      displayList := None;
    }

    /**
     * Loads `file` (None when it cannot be opened; otherwise its lines).
     * `sqrt` stands for the square root the normal computations call.
     */
    method Load(file: Option<seq<string>>, sqrt: real -> real) returns (ok: bool)
      modifies this
      ensures ok <==> file.Some? && LoadSucceeds(file.value)
      ensures !ok ==> vertices == [] && indicesPos == [] && normaisCalculadas == []
                      && normaisOBJ == [] && uvs == [] && displayList == old(displayList)
      ensures file.None? ==> triangulos == []
      ensures file.Some? ==> triangulos == ParseLines(file.value).tris
      ensures ok ==> vertices == ParseLines(file.value).verts && indicesPos == ParseLines(file.value).idx
                     && normaisOBJ == ParseLines(file.value).vns && uvs == ParseLines(file.value).vts
      ensures ok ==> normaisCalculadas == VertexNormals(vertices, indicesPos, sqrt)
      ensures ok ==> displayList == Some(LoadedList(file.value, sqrt))
    {
      vertices, indicesPos, normaisCalculadas := [], [], [];
      normaisOBJ, uvs, triangulos := [], [], [];
      if file.None? {
        return false;
      }
      var lines := file.value;
      var tempVerts, tempVNs, tempVTs, tempIdx := ReadLines(lines);
      ghost var p := ParseLines(lines);
      assert p.verts == tempVerts && p.idx == tempIdx && p.vns == tempVNs && p.vts == tempVTs && p.tris == triangulos;
      if tempVerts == [] || tempIdx == [] {
        return false;
      }
      vertices, indicesPos, normaisOBJ, uvs := tempVerts, tempIdx, tempVNs, tempVTs;
      ComputeNormals(sqrt);
      ParsedReadable(lines, sqrt);
      CompileDisplayList();
      return true;
    }

    /**
     * `normaisCalculadas`: zeros, the face normals of every triangle of
     * `indicesPos` added at its three positions, then normalised.
     */
    method ComputeNormals(sqrt: real -> real)
      modifies this`normaisCalculadas
      ensures normaisCalculadas == VertexNormals(vertices, indicesPos, sqrt)
    {
      var n := new real[|vertices|](_ => 0.0);
      assert n[..] == seq(|vertices|, _ => 0.0);
      AccumulateNormals(vertices, indicesPos, n, FaceNormalOf(sqrt));
      NormalizeNormals(n, sqrt);
      normaisCalculadas := n[..];
    }

    /** Compiles the display list: state set-up, the triangles block, then the matrix restored. */
    method CompileDisplayList()
      requires AllReadable(Mesh(vertices, normaisCalculadas, normaisOBJ, uvs), triangulos)
      modifies this`displayList
      ensures displayList == Some(DisplayList(Mesh(vertices, normaisCalculadas, normaisOBJ, uvs), triangulos))
    {
      var m := Mesh(vertices, normaisCalculadas, normaisOBJ, uvs);
      var triangles := CompileTriangles(m, triangulos);
      displayList := Some(Prologue + triangles + Epilogue);
    }

    /**
     * The line loop: returns `tempVerts`, `tempVNs`, `tempVTs` and `tempIdx`,
     * and appends the triangles' corners to `triangulos` as it goes.
     */
    method ReadLines(lines: seq<string>) returns (tempVerts: seq<real>, tempVNs: seq<real>, tempVTs: seq<real>, tempIdx: seq<nat>)
      requires triangulos == []
      modifies this`triangulos
      ensures Pools(tempVerts, tempVNs, tempVTs, tempIdx, triangulos) == ParseLines(lines)
    {
      tempVerts, tempVNs, tempVTs, tempIdx := [], [], [], [];
      var i := 0;
      while i < |lines|
        invariant 0 <= i <= |lines|
        invariant Pools(tempVerts, tempVNs, tempVTs, tempIdx, triangulos) == ParseLines(lines[..i])
      {
        assert lines[..i + 1][..i] == lines[..i];
        tempVerts, tempVNs, tempVTs, tempIdx := ReadLine(lines[i], tempVerts, tempVNs, tempVTs, tempIdx);
        i := i + 1;
      }
      assert lines[..i] == lines;
    }

    /** One iteration of the line loop. */
    method ReadLine(line: string, verts: seq<real>, vns: seq<real>, vts: seq<real>, idx: seq<nat>)
      returns (verts': seq<real>, vns': seq<real>, vts': seq<real>, idx': seq<nat>)
      modifies this`triangulos
      ensures Pools(verts', vns', vts', idx', triangulos) == StepLine(Pools(verts, vns, vts, idx, old(triangulos)), line)
    {
      verts', vns', vts', idx' := verts, vns, vts, idx;
      if line == [] || line[0] == '#' {
        return;
      }
      var words := Words(line);
      var tok := if words == [] then "" else words[0];
      var args := if words == [] then [] else words[1..];
      assert tok == Directive(line) && args == Args(line);
      if tok == "v" {
        verts' := verts + ReadCoords(args, 3);
      } else if tok == "vn" {
        vns' := vns + ReadCoords(args, 3);
      } else if tok == "vt" {
        vts' := vts + ReadCoords(args, 2);
      } else if tok == "f" {
        if |args| < 3 {
          return;
        }
        var vcount, vtcount, vncount := |verts| / 3, |vts| / 2, |vns| / 3;
        var corners := ParseCorners(args, vcount, vtcount, vncount);
        triangulos := AppendFan(triangulos, corners);
        var vind := CollectPositions(corners);
        idx' := AppendFan<nat>(idx, vind);
      }
    }
  }
}
