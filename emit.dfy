/**
 * The display list the loader compiles: a fixed prologue, then inside
 * glBegin(GL_TRIANGLES)/glEnd, for every complete triple of `triangulos`,
 * each corner issues its normal, its texture coordinate and its position,
 * in that order and only where they exist. GL calls are modelled as a
 * sequence of records carrying the values they read.
 */
module Emission {
  import opened Corner
  import opened Normals

  datatype GlCall =
    | PushMatrix
    | FillPolygons        // glPolygonMode(GL_FRONT_AND_BACK, GL_FILL)
    | DisableCullFace
    | Color(c: Vec3)
    | BeginTriangles
    | Normal(n: Vec3)
    | TexCoord(s: real, t: real)
    | Vertex(p: Vec3)
    | End
    | PopMatrix

  /** The buffers the display list reads from. */
  datatype Mesh = Mesh(vertices: seq<real>, computed: seq<real>, fileNormals: seq<real>, uvs: seq<real>)

  /** Every slot `c` uses lies inside the buffer it reads. */
  predicate Readable(m: Mesh, c: CantoTri) {
    |m.computed| == |m.vertices| &&
    (c.v >= 0 ==> 3 * c.v + 2 < |m.vertices|) &&
    (c.vt >= 0 ==> 2 * c.vt + 1 < |m.uvs|) &&
    (c.vn >= 0 ==> 3 * c.vn + 2 < |m.fileNormals|)
  }

  predicate AllReadable(m: Mesh, cs: seq<CantoTri>) {
    forall i :: 0 <= i < |cs| ==> Readable(m, cs[i])
  }

  /** The normal of a corner: the file's `vn` when there is one, else the computed one of `v`. */
  function NormalCall(m: Mesh, c: CantoTri): (r: seq<GlCall>)
    requires Readable(m, c)
    ensures |r| <= 1 && forall k :: 0 <= k < |r| ==> r[k].Normal?
    ensures r != [] <==> (|m.fileNormals| > 0 && c.vn >= 0) || c.v >= 0
  {
    if |m.fileNormals| > 0 && c.vn >= 0 then [Normal(Triple(m.fileNormals, c.vn))]
    else if c.v >= 0 then [Normal(Triple(m.computed, c.v))]
    else []
  }

  function TexCall(m: Mesh, c: CantoTri): (r: seq<GlCall>)
    requires Readable(m, c)
    ensures |r| <= 1 && forall k :: 0 <= k < |r| ==> r[k].TexCoord?
    ensures r != [] <==> |m.uvs| > 0 && c.vt >= 0
  {
    if |m.uvs| > 0 && c.vt >= 0 then [TexCoord(m.uvs[2 * c.vt], m.uvs[2 * c.vt + 1])] else []
  }

  function VertexCall(m: Mesh, c: CantoTri): (r: seq<GlCall>)
    requires Readable(m, c)
    ensures r != [] <==> c.v >= 0
    ensures c.v >= 0 ==> r == [Vertex(Triple(m.vertices, c.v))]
  {
    if c.v >= 0 then [Vertex(Triple(m.vertices, c.v))] else []
  }

  /** The calls a corner may issue between glBegin and glEnd. */
  predicate CornerCall(g: GlCall) {
    g.Normal? || g.TexCoord? || g.Vertex?
  }

  /** The calls one corner issues: at most one of each kind, the position last. */
  function EmitCorner(m: Mesh, c: CantoTri): (r: seq<GlCall>)
    requires Readable(m, c)
    ensures |r| <= 3
    ensures forall k :: 0 <= k < |r| ==> CornerCall(r[k])
    ensures c.v >= 0 ==> r != [] && r[|r| - 1] == Vertex(Triple(m.vertices, c.v))
  {
    NormalCall(m, c) + TexCall(m, c) + VertexCall(m, c)
  }

  /** The calls of a run of corners, in order. */
  function EmitCorners(m: Mesh, cs: seq<CantoTri>): (r: seq<GlCall>)
    requires AllReadable(m, cs)
    ensures forall k :: 0 <= k < |r| ==> CornerCall(r[k])
  {
    if cs == [] then []
    else EmitCorners(m, cs[..|cs| - 1]) + EmitCorner(m, cs[|cs| - 1])
  }

  /** The triangles block: the corners of every complete triple of `tris`. */
  function Emit(m: Mesh, tris: seq<CantoTri>): (r: seq<GlCall>)
    requires AllReadable(m, tris)
    ensures forall k :: 0 <= k < |r| ==> CornerCall(r[k])
  {
    EmitCorners(m, tris[..3 * (|tris| / 3)])
  }

  /** The calls before the triangles: push the matrix, fill polygons, no culling, white, glBegin. */
  const Prologue: seq<GlCall> := [PushMatrix, FillPolygons, DisableCullFace, Color(Vec3(1.0, 1.0, 1.0)), BeginTriangles]

  /** The calls after the triangles: glEnd, then the matrix restored. */
  const Epilogue: seq<GlCall> := [End, PopMatrix]

  /**
   * The whole display list: state set-up, the triangles block, then the matrix restored.
   * It is bracketed by one matrix push and pop, and holds exactly one glBegin, fifth,
   * and exactly one glEnd, second to last.
   */
  function DisplayList(m: Mesh, tris: seq<CantoTri>): (r: seq<GlCall>)
    requires AllReadable(m, tris)
    ensures |r| >= 7 && r[0] == PushMatrix && r[|r| - 1] == PopMatrix
    ensures forall k :: 0 <= k < |r| ==> (r[k] == BeginTriangles <==> k == 4)
    ensures forall k :: 0 <= k < |r| ==> (r[k] == End <==> k == |r| - 2)
    ensures r[..5] == Prologue && r[|r| - 2..] == Epilogue
    ensures forall k :: 5 <= k < |r| - 2 ==> CornerCall(r[k])
  {
    var body := Emit(m, tris);
    Bracketed(body);
    Prologue + body + Epilogue
  }

  /** Per-corner calls between `Prologue` and `Epilogue`: one glBegin, fifth, and one glEnd, second to last. */
  lemma Bracketed(body: seq<GlCall>)
    requires forall k :: 0 <= k < |body| ==> CornerCall(body[k])
    ensures |Prologue + body + Epilogue| >= 7
    ensures (Prologue + body + Epilogue)[0] == PushMatrix
    ensures (Prologue + body + Epilogue)[|body| + 6] == PopMatrix
    ensures forall k :: 0 <= k < |body| + 7 ==> ((Prologue + body + Epilogue)[k] == BeginTriangles <==> k == 4)
    ensures forall k :: 0 <= k < |body| + 7 ==> ((Prologue + body + Epilogue)[k] == End <==> k == |body| + 5)
    ensures (Prologue + body + Epilogue)[..5] == Prologue
    ensures (Prologue + body + Epilogue)[|body| + 5..] == Epilogue
    ensures forall k :: 5 <= k < |body| + 5 ==> CornerCall((Prologue + body + Epilogue)[k])
  {
    var r := Prologue + body + Epilogue;
    assert r[..5] == Prologue;
    assert r[|body| + 5..] == Epilogue;
    forall k | 0 <= k < |r|
      ensures (r[k] == BeginTriangles <==> k == 4) && (r[k] == End <==> k == |body| + 5)
    {
      if k < 5 {
        assert r[k] == Prologue[k];
      } else if k < 5 + |body| {
        assert r[k] == body[k - 5];
      } else {
        assert r[k] == Epilogue[k - 5 - |body|];
      }
    }
  }

  /** The positions of the `glVertex` calls, in order. */
  function Positions(calls: seq<GlCall>): (r: seq<Vec3>)
    ensures |r| <= |calls|
  {
    if calls == [] then []
    else Positions(calls[..|calls| - 1]) + (if calls[|calls| - 1].Vertex? then [calls[|calls| - 1].p] else [])
  }

  /** The positions of the corners that have one, in order. */
  function CornerPositions(m: Mesh, cs: seq<CantoTri>): (r: seq<Vec3>)
    requires AllReadable(m, cs)
    ensures |r| <= |cs|
  {
    if cs == [] then []
    else CornerPositions(m, cs[..|cs| - 1]) + (if cs[|cs| - 1].v >= 0 then [Triple(m.vertices, cs[|cs| - 1].v)] else [])
  }

  lemma {:induction false} PositionsAppend(a: seq<GlCall>, b: seq<GlCall>)
    ensures Positions(a + b) == Positions(a) + Positions(b)
    decreases |b|
  {
    if b == [] {
      assert a + b == a;
    } else {
      assert (a + b)[..|a + b| - 1] == a + b[..|b| - 1];
      PositionsAppend(a, b[..|b| - 1]);
    }
  }

  /**
   * The `glVertex` calls of the emitted corners are exactly the positions
   * of the corners that have one, in the order of the corners.
   */
  lemma {:induction false} EmittedPositions(m: Mesh, cs: seq<CantoTri>)
    requires AllReadable(m, cs)
    ensures Positions(EmitCorners(m, cs)) == CornerPositions(m, cs)
  {
    if cs != [] {
      var c := cs[|cs| - 1];
      EmittedPositions(m, cs[..|cs| - 1]);
      PositionsAppend(EmitCorners(m, cs[..|cs| - 1]), EmitCorner(m, c));
      PositionsAppend(NormalCall(m, c), TexCall(m, c));
      PositionsAppend(NormalCall(m, c) + TexCall(m, c), VertexCall(m, c));
      assert Positions(NormalCall(m, c)) == [] by {
        if NormalCall(m, c) != [] {
          assert NormalCall(m, c)[..0] == [];
        }
      }
      assert Positions(TexCall(m, c)) == [] by {
        if TexCall(m, c) != [] {
          assert TexCall(m, c)[..0] == [];
        }
      }
      assert Positions(VertexCall(m, c)) == (if c.v >= 0 then [Triple(m.vertices, c.v)] else []) by {
        if c.v >= 0 {
          assert VertexCall(m, c)[..0] == [];
        }
      }
    }
  }

  /** When every corner has a position, each corner yields one position, in order. */
  lemma {:induction false} AllPositioned(m: Mesh, cs: seq<CantoTri>)
    requires AllReadable(m, cs)
    requires forall i :: 0 <= i < |cs| ==> cs[i].v >= 0
    ensures |CornerPositions(m, cs)| == |cs|
    ensures forall i :: 0 <= i < |cs| ==> CornerPositions(m, cs)[i] == Triple(m.vertices, cs[i].v)
  {
    if cs != [] {
      AllPositioned(m, cs[..|cs| - 1]);
    }
  }

  /**
   * With every corner positioned, the triangles block issues one `glVertex`
   * per corner of every complete triple, so GL_TRIANGLES groups the
   * vertices of each triangle together.
   */
  lemma TrianglesAligned(m: Mesh, tris: seq<CantoTri>)
    requires AllReadable(m, tris)
    requires forall i :: 0 <= i < |tris| ==> tris[i].v >= 0
    ensures |Positions(Emit(m, tris))| == 3 * (|tris| / 3)
    ensures forall i :: 0 <= i < 3 * (|tris| / 3) ==> Positions(Emit(m, tris))[i] == Triple(m.vertices, tris[i].v)
  {
    var cs := tris[..3 * (|tris| / 3)];
    EmittedPositions(m, cs);
    AllPositioned(m, cs);
  }

  /** Every corner with a position contributes one position, the others none. */
  lemma {:induction false} PositionCount(m: Mesh, cs: seq<CantoTri>)
    requires AllReadable(m, cs)
    ensures |CornerPositions(m, cs)| == |cs| - Unpositioned(cs)
  {
    if cs != [] {
      var init := cs[..|cs| - 1];
      assert AllReadable(m, init);
      PositionCount(m, init);
    }
  }

  /** The triangles block issues one vertex per complete-triangle corner that has a position. */
  lemma VertexCount(m: Mesh, tris: seq<CantoTri>)
    requires AllReadable(m, tris)
    ensures |Positions(Emit(m, tris))| == 3 * (|tris| / 3) - Unpositioned(tris[..3 * (|tris| / 3)])
  {
    var full := tris[..3 * (|tris| / 3)];
    assert AllReadable(m, full);
    EmittedPositions(m, full);
    PositionCount(m, full);
  }

  /**
   * A corner without a position issues no `glVertex`, and the loop does
   * not compensate: with a single such corner the vertex count is no
   * longer a multiple of 3, so GL_TRIANGLES joins the remaining vertices
   * of that triangle with the next triangle's.
   */
  lemma UnpositionedCornerShiftsTriangles(m: Mesh, tris: seq<CantoTri>)
    requires AllReadable(m, tris)
    requires Unpositioned(tris[..3 * (|tris| / 3)]) == 1
    ensures |Positions(Emit(m, tris))| % 3 == 2
  {
    VertexCount(m, tris);
  }

  /** Where the file gives a normal for the corner, it is issued first and the computed one is not used. */
  lemma FileNormalFirst(m: Mesh, c: CantoTri)
    requires Readable(m, c) && c.vn >= 0
    ensures EmitCorner(m, c)[0] == Normal(Triple(m.fileNormals, c.vn))
  {
  }

  /** Without a file normal, a positioned corner gets the computed normal of its position. */
  lemma ComputedNormalFallback(m: Mesh, c: CantoTri)
    requires Readable(m, c) && c.vn < 0 && c.v >= 0
    ensures EmitCorner(m, c)[0] == Normal(Triple(m.computed, c.v))
    ensures EmitCorner(m, c)[|EmitCorner(m, c)| - 1] == Vertex(Triple(m.vertices, c.v))
  {
  }

  /** A corner with neither a file normal nor a position issues no normal at all. */
  lemma NoNormalWithoutSource(m: Mesh, c: CantoTri)
    requires Readable(m, c) && c.v < 0 && (c.vn < 0 || |m.fileNormals| == 0)
    ensures forall k :: 0 <= k < |EmitCorner(m, c)| ==> !EmitCorner(m, c)[k].Normal?
  {
  }

  /** A texture coordinate is issued exactly when `vt` records exist and the corner has one. */
  lemma TexCoordWhenPresent(m: Mesh, c: CantoTri)
    requires Readable(m, c)
    ensures (exists k :: 0 <= k < |EmitCorner(m, c)| && EmitCorner(m, c)[k].TexCoord?) <==> |m.uvs| > 0 && c.vt >= 0
    ensures |m.uvs| > 0 && c.vt >= 0 ==> TexCoord(m.uvs[2 * c.vt], m.uvs[2 * c.vt + 1]) in EmitCorner(m, c)
  {
    var e := EmitCorner(m, c);
    if |m.uvs| > 0 && c.vt >= 0 {
      assert e[|NormalCall(m, c)|].TexCoord?;
    }
  }

  /** A corner with neither a normal, a texture coordinate nor a position issues nothing. */
  lemma EmptyCorner(m: Mesh, c: CantoTri)
    requires Readable(m, c) && c.v < 0 && c.vt < 0 && c.vn < 0
    ensures EmitCorner(m, c) == []
  {
  }

  /**
   * The nested loops inside glBegin/glEnd:
   * `for i = 0; i + 2 < |triangulos|; i += 3`, then `for k in 0..3`.
   */
  method CompileTriangles(m: Mesh, triangulos: seq<CantoTri>) returns (calls: seq<GlCall>)
    requires AllReadable(m, triangulos)
    ensures calls == Emit(m, triangulos)
  {
    calls := [];
    if triangulos == [] {
      return;
    }
    var i, t := 0, 0;
    while i + 2 < |triangulos|
      invariant i == 3 * t && i <= |triangulos|
      invariant calls == EmitPrefix(m, triangulos, 3 * t)
    {
      for k := 0 to 3
        invariant calls == EmitPrefix(m, triangulos, i + k)
      {
        EmitCornersStep(m, triangulos, i + k);
        var cornerCalls := CornerCalls(m, triangulos[i + k]);
        calls := calls + cornerCalls;
      }
      i, t := i + 3, t + 1;
    }
    EmitIsFullPrefix(m, triangulos, t);
  }

  /** After the last complete triangle, the prefix emitted so far is the whole triangles block. */
  lemma EmitIsFullPrefix(m: Mesh, tris: seq<CantoTri>, t: nat)
    requires AllReadable(m, tris) && 3 * t <= |tris| < 3 * t + 3
    ensures EmitPrefix(m, tris, 3 * t) == Emit(m, tris)
  {
    assert |tris| / 3 == t;
  }

  /** The body of the inner loop, for corner `c`. */
  method CornerCalls(m: Mesh, c: CantoTri) returns (calls: seq<GlCall>)
    requires Readable(m, c)
    ensures calls == EmitCorner(m, c)
  {
    calls := [];
    if |m.fileNormals| > 0 && c.vn >= 0 {
      calls := calls + [Normal(Triple(m.fileNormals, c.vn))];
    } else if c.v >= 0 {
      calls := calls + [Normal(Triple(m.computed, c.v))];
    }
    assert calls == NormalCall(m, c);
    if |m.uvs| > 0 && c.vt >= 0 {
      calls := calls + [TexCoord(m.uvs[2 * c.vt], m.uvs[2 * c.vt + 1])];
    }
    assert calls == NormalCall(m, c) + TexCall(m, c);
    if c.v >= 0 {
      calls := calls + [Vertex(Triple(m.vertices, c.v))];
    }
  }

  /** The calls of the first `n` corners of `cs`. */
  function EmitPrefix(m: Mesh, cs: seq<CantoTri>, n: nat): seq<GlCall>
    requires AllReadable(m, cs) && n <= |cs|
  {
    assert AllReadable(m, cs[..n]);
    EmitCorners(m, cs[..n])
  }

  lemma EmitCornersStep(m: Mesh, cs: seq<CantoTri>, n: nat)
    requires AllReadable(m, cs) && n < |cs|
    ensures EmitPrefix(m, cs, n + 1) == EmitPrefix(m, cs, n) + EmitCorner(m, cs[n])
  {
    assert cs[..n + 1][..n] == cs[..n];
  }
}
