/**
 * The line loop of `carregarOBJParaDisplayList`: what each line of the
 * file adds to the attribute pools, to the position-index list used for
 * normals, and to the corner list `triangulos`.
 */
module ObjParse {
  import opened Lexing
  import opened Corner
  import opened Fans
  import opened Text

  /**
   * The loop's growing buffers: `tempVerts`, `tempVNs`, `tempVTs` (flat
   * coordinates, 3, 3 and 2 per record), `tempIdx` (position indices, three
   * per triangle) and `triangulos` (corners, three per triangle).
   */
  datatype Pools = Pools(verts: seq<real>, vns: seq<real>, vts: seq<real>, idx: seq<nat>, tris: seq<CantoTri>)

  const NoPools := Pools([], [], [], [], [])

  /** Number of records in each pool, as the `f` branch computes them. */
  function VCount(p: Pools): int { |p.verts| / 3 }
  function VtCount(p: Pools): int { |p.vts| / 2 }
  function VnCount(p: Pools): int { |p.vns| / 3 }

  /** Lines the loop skips before splitting them: empty lines and comments. */
  predicate SkippedLine(line: string) {
    line == [] || line[0] == '#'
  }

  /** The first word of a line that is not skipped, "" when there is none. */
  function Directive(line: string): string {
    if SkippedLine(line) then ""
    else
      var ws := Words(line);
      if ws == [] then "" else ws[0]
  }

  /** The words after the first. */
  function Args(line: string): seq<string> {
    var ws := Words(line);
    if ws == [] then [] else ws[1..]
  }

  /** The corners of a face, each token resolved against the pool sizes of the moment. */
  function ParseCantos(toks: seq<string>, vcount: int, vtcount: int, vncount: int): (cs: seq<CantoTri>)
    ensures |cs| == |toks|
    ensures forall i :: 0 <= i < |toks| ==> cs[i] == ParseCanto(toks[i], vcount, vtcount, vncount)
  {
    if toks == [] then []
    else ParseCantos(toks[..|toks| - 1], vcount, vtcount, vncount)
         + [ParseCanto(toks[|toks| - 1], vcount, vtcount, vncount)]
  }

  /** The position indices of the corners that have one, in corner order (`vind`). */
  function PositionIndices(cs: seq<CantoTri>): (r: seq<nat>)
    ensures PositionsOf(cs, r)
  {
    if cs == [] then []
    else
      var c := cs[|cs| - 1];
      var prev := PositionIndices(cs[..|cs| - 1]);
      var r := if c.v >= 0 then prev + [c.v] else prev;
      PositionsOfSnoc(cs, prev, r);
      r
  }

  /**
   * `r` is `vind` for the corners `cs`: one entry per corner with a position,
   * holding exactly the corners' positions, and the positions in order when
   * every corner has one.
   */
  ghost predicate PositionsOf(cs: seq<CantoTri>, r: seq<nat>) {
    |r| == |cs| - Unpositioned(cs) &&
    (forall x :: x in r <==> exists i :: 0 <= i < |cs| && cs[i].v >= 0 && cs[i].v == x) &&
    ((forall c :: c in cs ==> c.v >= 0) ==> |r| == |cs| && forall i :: 0 <= i < |cs| ==> r[i] == cs[i].v)
  }

  /** A single corner contributes its position when it has one, and nothing otherwise. */
  lemma PositionIndicesOne(c: CantoTri)
    ensures PositionIndices([c]) == if c.v >= 0 then [c.v] else []
  {
    assert [c][..0] == [];
  }

  /**
   * `vind` of a concatenation is the concatenation of the `vind`s: with
   * `PositionIndicesOne`, the positions are kept in corner order, each as
   * often as it occurs.
   */
  lemma {:induction false} PositionIndicesAppend(a: seq<CantoTri>, b: seq<CantoTri>)
    ensures PositionIndices(a + b) == PositionIndices(a) + PositionIndices(b)
    decreases |b|
  {
    if b == [] {
      assert a + b == a;
    } else {
      var init := b[..|b| - 1];
      var c := b[|b| - 1];
      assert (a + b)[..|a + b| - 1] == a + init;
      assert (a + b)[|a + b| - 1] == c;
      PositionIndicesAppend(a, init);
    }
  }

  /** One more corner adds its position, if it has one, to the positions kept so far. */
  lemma PositionsOfSnoc(cs: seq<CantoTri>, prev: seq<nat>, r: seq<nat>)
    requires cs != [] && PositionsOf(cs[..|cs| - 1], prev)
    requires r == if cs[|cs| - 1].v >= 0 then prev + [cs[|cs| - 1].v] else prev
    ensures PositionsOf(cs, r)
  {
    var init := cs[..|cs| - 1];
    var c := cs[|cs| - 1];
    assert cs == init + [c];
    MembersOfSnoc(init, c, prev, r);
    if forall c' :: c' in cs ==> c'.v >= 0 {
      assert forall c' :: c' in init ==> c' in cs;
      forall i | 0 <= i < |cs| ensures r[i] == cs[i].v {
        if i < |init| {
          assert r[i] == prev[i] && cs[i] == init[i];
        }
      }
    }
  }

  lemma MembersOfSnoc(init: seq<CantoTri>, c: CantoTri, prev: seq<nat>, r: seq<nat>)
    requires forall x :: x in prev <==> exists i :: 0 <= i < |init| && init[i].v >= 0 && init[i].v == x
    requires r == if c.v >= 0 then prev + [c.v] else prev
    ensures forall x :: x in r <==> exists i :: 0 <= i < |init + [c]| && (init + [c])[i].v >= 0 && (init + [c])[i].v == x
  {
    var cs := init + [c];
    forall x: nat ensures x in r <==> exists i :: 0 <= i < |cs| && cs[i].v >= 0 && cs[i].v == x {
      if x in prev {
        var i :| 0 <= i < |init| && init[i].v >= 0 && init[i].v == x;
        assert cs[i] == init[i];
      } else if x in r {
        assert cs[|init|] == c;
      }
      if exists i :: 0 <= i < |cs| && cs[i].v >= 0 && cs[i].v == x {
        var i :| 0 <= i < |cs| && cs[i].v >= 0 && cs[i].v == x;
        if i < |init| {
          assert cs[i] == init[i];
        }
      }
    }
  }

  /** An `f` line: fewer than three corners is a no-op; otherwise both fans are appended. */
  function StepFace(p: Pools, toks: seq<string>): (r: Pools)
    ensures r.verts == p.verts && r.vns == p.vns && r.vts == p.vts
    ensures |r.tris| == |p.tris| + (if |toks| < 3 then 0 else 3 * (|toks| - 2))
    ensures |r.idx| >= |p.idx| && r.tris[..|p.tris|] == p.tris && r.idx[..|p.idx|] == p.idx
  {
    if |toks| < 3 then p
    else
      var corners := ParseCantos(toks, VCount(p), VtCount(p), VnCount(p));
      p.(tris := p.tris + Fan(corners), idx := p.idx + Fan<nat>(PositionIndices(corners)))
  }

  /** One iteration of the line loop. */
  function StepLine(p: Pools, line: string): Pools {
    Step(p, Directive(line), Args(line))
  }

  /** The dispatch on the first word `d` of a line, `args` being the words after it. */
  function Step(p: Pools, d: string, args: seq<string>): Pools {
    if d == "v" then p.(verts := p.verts + ReadCoords(args, 3))
    else if d == "vn" then p.(vns := p.vns + ReadCoords(args, 3))
    else if d == "vt" then p.(vts := p.vts + ReadCoords(args, 2))
    else if d == "f" then StepFace(p, args)
    else p
  }

  /** The buffers after the loop has read `lines`. */
  function ParseLines(lines: seq<string>): Pools {
    if lines == [] then NoPools
    else StepLine(ParseLines(lines[..|lines| - 1]), lines[|lines| - 1])
  }

  /** Number of lines whose directive is `d`. */
  function Count(lines: seq<string>, d: string): nat {
    if lines == [] then 0
    else Count(lines[..|lines| - 1], d) + (if Directive(lines[|lines| - 1]) == d then 1 else 0)
  }

  /** A corner whose every slot is absent or valid for pools of the given sizes. */
  predicate CornerIn(c: CantoTri, vcount: int, vtcount: int, vncount: int) {
    InRange(c.v, vcount) && InRange(c.vt, vtcount) && InRange(c.vn, vncount)
  }

  /** What the loop keeps true of its buffers. */
  predicate WellFormed(p: Pools) {
    |p.verts| % 3 == 0 && |p.vns| % 3 == 0 && |p.vts| % 2 == 0 &&
    |p.idx| % 3 == 0 && |p.tris| % 3 == 0 &&
    (forall i :: 0 <= i < |p.idx| ==> p.idx[i] < VCount(p)) &&
    (forall c :: c in p.tris ==> CornerIn(c, VCount(p), VtCount(p), VnCount(p)))
  }

  /** Every corner of a face is clamped to the pools it was resolved against. */
  lemma CornersInRange(toks: seq<string>, vcount: int, vtcount: int, vncount: int)
    ensures forall c :: c in ParseCantos(toks, vcount, vtcount, vncount) ==> CornerIn(c, vcount, vtcount, vncount)
  {
    var cs := ParseCantos(toks, vcount, vtcount, vncount);
    forall c | c in cs ensures CornerIn(c, vcount, vtcount, vncount) {
      var i :| 0 <= i < |cs| && cs[i] == c;
      assert c == ParseCanto(toks[i], vcount, vtcount, vncount);
    }
  }

  /** The position indices kept from corners are among the corners' own positions. */
  lemma {:induction false} PositionIndicesFrom(cs: seq<CantoTri>, vcount: int)
    requires forall c :: c in cs ==> InRange(c.v, vcount)
    ensures forall x :: x in PositionIndices(cs) ==> x < vcount
  {
    if cs != [] {
      var init := cs[..|cs| - 1];
      assert forall c :: c in init ==> c in cs;
      PositionIndicesFrom(init, vcount);
    }
  }

  /** The position fan of clamped corners holds valid position indices only. */
  lemma PositionsInRange(cs: seq<CantoTri>, vcount: int)
    requires forall c :: c in cs ==> InRange(c.v, vcount)
    ensures forall x :: x in Fan<nat>(PositionIndices(cs)) ==> x < vcount
  {
    PositionIndicesFrom(cs, vcount);
  }

  /** Appending the fans of clamped corners keeps the buffers well formed. */
  lemma AppendFansWellFormed(p: Pools, cs: seq<CantoTri>)
    requires WellFormed(p)
    requires forall c :: c in cs ==> CornerIn(c, VCount(p), VtCount(p), VnCount(p))
    ensures WellFormed(p.(tris := p.tris + Fan(cs), idx := p.idx + Fan<nat>(PositionIndices(cs))))
  {
    var tfan := Fan(cs);
    var pfan := Fan<nat>(PositionIndices(cs));
    PositionsInRange(cs, VCount(p));
    assert forall c :: c in tfan ==> CornerIn(c, VCount(p), VtCount(p), VnCount(p));
    AppendKeepsWellFormed(p, tfan, pfan);
  }

  /** Appending whole triangles of clamped corners and valid position indices keeps the buffers well formed. */
  lemma AppendKeepsWellFormed(p: Pools, tfan: seq<CantoTri>, pfan: seq<nat>)
    requires WellFormed(p)
    requires |tfan| % 3 == 0 && |pfan| % 3 == 0
    requires forall c :: c in tfan ==> CornerIn(c, VCount(p), VtCount(p), VnCount(p))
    requires forall x :: x in pfan ==> x < VCount(p)
    ensures WellFormed(p.(tris := p.tris + tfan, idx := p.idx + pfan))
  {
    var q := p.(tris := p.tris + tfan, idx := p.idx + pfan);
    assert VCount(q) == VCount(p) && VtCount(q) == VtCount(p) && VnCount(q) == VnCount(p);
    forall c | c in q.tris ensures CornerIn(c, VCount(p), VtCount(p), VnCount(p)) {
      assert c in p.tris || c in tfan;
    }
    forall i | 0 <= i < |q.idx| ensures q.idx[i] < VCount(p) {
      if i >= |p.idx| {
        assert q.idx[i] == pfan[i - |p.idx|];
        assert pfan[i - |p.idx|] in pfan;
      } else {
        assert q.idx[i] == p.idx[i];
      }
    }
  }

  /** A face keeps the buffers well formed: its corners are clamped to the current pools. */
  lemma StepFaceWellFormed(p: Pools, toks: seq<string>)
    requires WellFormed(p)
    ensures WellFormed(StepFace(p, toks))
  {
    if |toks| >= 3 {
      CornersInRange(toks, VCount(p), VtCount(p), VnCount(p));
      AppendFansWellFormed(p, ParseCantos(toks, VCount(p), VtCount(p), VnCount(p)));
    }
  }

  /** Every line keeps the buffers well formed. */
  lemma StepWellFormed(p: Pools, d: string, args: seq<string>)
    requires WellFormed(p)
    ensures WellFormed(Step(p, d, args))
  {
    if d == "v" || d == "vn" || d == "vt" {
      RecordLineWellFormed(p, d, args);
    } else if d == "f" {
      assert Step(p, d, args) == StepFace(p, args);
      StepFaceWellFormed(p, args);
    }
  }

  /** A `v`, `vn` or `vt` line keeps the buffers well formed. */
  lemma RecordLineWellFormed(p: Pools, d: string, args: seq<string>)
    requires WellFormed(p)
    requires d == "v" || d == "vn" || d == "vt"
    ensures WellFormed(Step(p, d, args))
  {
    var q := Step(p, d, args);
    if d == "v" {
      assert q == p.(verts := p.verts + ReadCoords(args, 3));
    } else if d == "vn" {
      assert q == p.(vns := p.vns + ReadCoords(args, 3));
    } else {
      assert q == p.(vts := p.vts + ReadCoords(args, 2));
    }
    GrowWellFormed(p, q);
  }

  /** Reading whole records into the pools keeps every index valid. */
  lemma GrowWellFormed(p: Pools, q: Pools)
    requires WellFormed(p)
    requires q.idx == p.idx && q.tris == p.tris
    requires |q.verts| % 3 == 0 && |q.vns| % 3 == 0 && |q.vts| % 2 == 0
    requires |p.verts| <= |q.verts| && |p.vns| <= |q.vns| && |p.vts| <= |q.vts|
    ensures WellFormed(q)
  {
    assert VCount(p) <= VCount(q) && VtCount(p) <= VtCount(q) && VnCount(p) <= VnCount(q);
    forall c | c in q.tris ensures CornerIn(c, VCount(q), VtCount(q), VnCount(q)) {
      assert CornerIn(c, VCount(p), VtCount(p), VnCount(p));
    }
  }

  /** After any prefix of the file, the buffers are well formed. */
  lemma {:induction false} ParseLinesWellFormed(lines: seq<string>)
    ensures WellFormed(ParseLines(lines))
  {
    if lines != [] {
      var last := lines[|lines| - 1];
      ParseLinesWellFormed(lines[..|lines| - 1]);
      StepWellFormed(ParseLines(lines[..|lines| - 1]), Directive(last), Args(last));
    }
  }

  /** The pools hold exactly one record per `v`, `vn` and `vt` line. */
  lemma {:induction false} PoolSizes(lines: seq<string>)
    ensures |ParseLines(lines).verts| == 3 * Count(lines, "v")
    ensures |ParseLines(lines).vns| == 3 * Count(lines, "vn")
    ensures |ParseLines(lines).vts| == 2 * Count(lines, "vt")
  {
    if lines != [] {
      PoolSizes(lines[..|lines| - 1]);
    }
  }

  /** Blank lines, comments and unknown directives leave every buffer as it was. */
  lemma IgnoredLine(p: Pools, line: string)
    requires Directive(line) !in {"v", "vn", "vt", "f"}
    ensures StepLine(p, line) == p
  {
  }

  /** The corners of a face whose tokens are `toks`, resolved against the pool sizes of `p`. */
  function FaceCorners(p: Pools, toks: seq<string>): seq<CantoTri> {
    ParseCantos(toks, VCount(p), VtCount(p), VnCount(p))
  }

  /**
   * An `f` line with N >= 3 corner tokens appends the fan of its corners,
   * exactly 3(N-2) of them, to `triangulos` (triangle k of the fan is
   * described by `FanTriangle`) and leaves the attribute pools alone.
   */
  lemma FaceTriangles(p: Pools, toks: seq<string>)
    requires |toks| >= 3
    ensures Step(p, "f", toks).verts == p.verts
    ensures Step(p, "f", toks).vns == p.vns && Step(p, "f", toks).vts == p.vts
    ensures Step(p, "f", toks).tris == p.tris + Fan(FaceCorners(p, toks))
    ensures |Step(p, "f", toks).tris| == |p.tris| + 3 * (|toks| - 2)
  {
  }

  /** 3(M-2) when M >= 3 corners of the face have a valid position, else 0. */
  function PositionTriangleCorners(p: Pools, toks: seq<string>): nat {
    var m := |PositionIndices(FaceCorners(p, toks))|;
    if m >= 3 then 3 * (m - 2) else 0
  }

  /**
   * An `f` line with N >= 3 corner tokens appends to `tempIdx` the fan of
   * its valid position indices: 3(M-2) entries when M >= 3 of its corners
   * have a position, none otherwise.
   */
  lemma FacePositions(p: Pools, toks: seq<string>)
    requires |toks| >= 3
    ensures Step(p, "f", toks).idx == p.idx + Fan<nat>(PositionIndices(FaceCorners(p, toks)))
    ensures |Step(p, "f", toks).idx| == |p.idx| + PositionTriangleCorners(p, toks)
  {
  }

  /**
   * A negative corner index refers to the positions read before the `f`
   * line: with `vcount` of them, "-k" on every corner of a triangle adds
   * three copies of position vcount - k, whatever `v` lines follow.
   */
  lemma NegativeIndexAtFaceTime(p: Pools, k: int)
    requires 1 <= k <= VCount(p) && k <= -INT_MIN
    ensures Step(p, "f", [IntToDec(-k), IntToDec(-k), IntToDec(-k)]).tris
         == p.tris + [CantoTri(VCount(p) - k, -1, -1), CantoTri(VCount(p) - k, -1, -1), CantoTri(VCount(p) - k, -1, -1)]
  {
    var tok := IntToDec(-k);
    var toks := [tok, tok, tok];
    var c := CantoTri(VCount(p) - k, -1, -1);
    NegativeIndexResolves(k, VCount(p), VtCount(p), VnCount(p));
    var cs := FaceCorners(p, toks);
    assert ParseCanto(tok, VCount(p), VtCount(p), VnCount(p)) == c;
    assert toks[0] == tok && toks[1] == tok && toks[2] == tok;
    assert cs[0] == c && cs[1] == c && cs[2] == c;
    ThreeOf(cs, c);
    FaceTriangles(p, toks);
    FanTriangle(cs, 2);
    assert Fan(cs) == [c, c, c];
  }

  lemma ThreeOf<T>(s: seq<T>, x: T)
    requires |s| == 3 && s[0] == x && s[1] == x && s[2] == x
    ensures s == [x, x, x]
  {
  }

  /** An `f` line with fewer than three tokens changes nothing. */
  lemma ShortFace(p: Pools, toks: seq<string>)
    requires |toks| < 3
    ensures Step(p, "f", toks) == p
  {
  }

  /** `q` extends `p`: every buffer of `p` is a prefix of the same buffer of `q`. */
  predicate Extends(p: Pools, q: Pools) {
    |p.verts| <= |q.verts| && q.verts[..|p.verts|] == p.verts &&
    |p.vns| <= |q.vns| && q.vns[..|p.vns|] == p.vns &&
    |p.vts| <= |q.vts| && q.vts[..|p.vts|] == p.vts &&
    |p.idx| <= |q.idx| && q.idx[..|p.idx|] == p.idx &&
    |p.tris| <= |q.tris| && q.tris[..|p.tris|] == p.tris
  }

  lemma ExtendsTrans(p: Pools, q: Pools, r: Pools)
    requires Extends(p, q) && Extends(q, r)
    ensures Extends(p, r)
  {
    assert r.verts[..|p.verts|] == r.verts[..|q.verts|][..|p.verts|];
    assert r.vns[..|p.vns|] == r.vns[..|q.vns|][..|p.vns|];
    assert r.vts[..|p.vts|] == r.vts[..|q.vts|][..|p.vts|];
    assert r.idx[..|p.idx|] == r.idx[..|q.idx|][..|p.idx|];
    assert r.tris[..|p.tris|] == r.tris[..|q.tris|][..|p.tris|];
  }

  lemma StepLineExtends(p: Pools, line: string)
    ensures Extends(p, StepLine(p, line))
  {
  }

  /**
   * Buffers only grow: what the first lines of a file put in them is never
   * changed by later lines. In particular a face's corners, resolved
   * against the pool sizes when its line is read, are not re-resolved when
   * more `v`, `vt` or `vn` lines follow.
   */
  lemma {:induction false} ParseLinesExtends(a: seq<string>, b: seq<string>)
    ensures Extends(ParseLines(a), ParseLines(a + b))
  {
    if b == [] {
      assert a + b == a;
    } else {
      var init := b[..|b| - 1];
      ParseLinesExtends(a, init);
      assert (a + b)[..|a + b| - 1] == a + init;
      assert (a + b)[|a + b| - 1] == b[|b| - 1];
      var q := ParseLines(a + init);
      assert ParseLines(a + b) == StepLine(q, b[|b| - 1]);
      StepLineExtends(q, b[|b| - 1]);
      ExtendsTrans(ParseLines(a), q, ParseLines(a + b));
    }
  }

  /** A face with at least three corners that have a valid position, read after `p`. */
  predicate AddsPositionTriangles(p: Pools, d: string, args: seq<string>) {
    d == "f" && |args| >= 3 && |PositionIndices(FaceCorners(p, args))| >= 3
  }

  /** A line adds to `tempIdx` exactly when it is such a face. */
  lemma StepIdx(p: Pools, d: string, args: seq<string>)
    ensures |Step(p, d, args).idx| >= |p.idx|
    ensures Step(p, d, args).idx == p.idx <==> !AddsPositionTriangles(p, d, args)
  {
    if d == "f" && |args| >= 3 {
      FacePositions(p, args);
    }
  }

  /** Whether line `i` of `lines` is such a face, given the lines before it. */
  predicate LineAddsPositionTriangles(lines: seq<string>, i: nat)
    requires i < |lines|
  {
    AddsPositionTriangles(ParseLines(lines[..i]), Directive(lines[i]), Args(lines[i]))
  }

  /** `tempIdx` ends up empty exactly when no face line has three corners with a valid position. */
  lemma {:induction false} NoPositionTriangles(lines: seq<string>)
    ensures ParseLines(lines).idx == [] <==> forall i :: 0 <= i < |lines| ==> !LineAddsPositionTriangles(lines, i)
  {
    if lines != [] {
      var n := |lines| - 1;
      var init := lines[..n];
      var p := ParseLines(init);
      NoPositionTriangles(init);
      assert ParseLines(lines) == Step(p, Directive(lines[n]), Args(lines[n]));
      StepIdx(p, Directive(lines[n]), Args(lines[n]));
      assert LineAddsPositionTriangles(lines, n) == AddsPositionTriangles(p, Directive(lines[n]), Args(lines[n]));
      SamePrefixSameAdds(lines, n);
      if ParseLines(lines).idx == [] {
        assert p.idx == [] && ParseLines(lines).idx == p.idx;
        assert !LineAddsPositionTriangles(lines, n);
        forall i | 0 <= i < |lines| ensures !LineAddsPositionTriangles(lines, i) {
          if i < n {
            assert !LineAddsPositionTriangles(init, i);
            assert LineAddsPositionTriangles(lines, i) == LineAddsPositionTriangles(init, i);
          } else {
            assert i == n;
          }
        }
      } else if p.idx == [] {
        assert LineAddsPositionTriangles(lines, n);
      } else {
        var i :| 0 <= i < n && LineAddsPositionTriangles(init, i);
        assert LineAddsPositionTriangles(lines, i);
      }
    }
  }

  /** Whether an earlier line adds position triangles does not depend on the lines after it. */
  lemma SamePrefixSameAdds(lines: seq<string>, n: nat)
    requires n <= |lines|
    ensures forall i :: 0 <= i < n ==> LineAddsPositionTriangles(lines, i) == LineAddsPositionTriangles(lines[..n], i)
  {
    forall i | 0 <= i < n
      ensures LineAddsPositionTriangles(lines, i) == LineAddsPositionTriangles(lines[..n], i)
    {
      assert lines[..i] == lines[..n][..i];
    }
  }

  /** The loop over a face's tokens: `corners.push_back(parseCanto(s, ...))`. */
  method ParseCorners(toks: seq<string>, vcount: int, vtcount: int, vncount: int) returns (corners: seq<CantoTri>)
    ensures corners == ParseCantos(toks, vcount, vtcount, vncount)
  {
    corners := [];
    var i := 0;
    while i < |toks|
      invariant 0 <= i <= |toks|
      invariant corners == ParseCantos(toks[..i], vcount, vtcount, vncount)
    {
      ParseCantosSnoc(toks, i, vcount, vtcount, vncount);
      corners := corners + [ParseCanto(toks[i], vcount, vtcount, vncount)];
      i := i + 1;
    }
    assert toks[..|toks|] == toks;
  }

  lemma ParseCantosSnoc(toks: seq<string>, i: nat, vcount: int, vtcount: int, vncount: int)
    requires i < |toks|
    ensures ParseCantos(toks[..i + 1], vcount, vtcount, vncount)
         == ParseCantos(toks[..i], vcount, vtcount, vncount) + [ParseCanto(toks[i], vcount, vtcount, vncount)]
  {
    assert toks[..i + 1][..i] == toks[..i];
  }

  /** The loop `for c in corners: if c.v >= 0: vind.push_back(c.v)`. */
  method CollectPositions(corners: seq<CantoTri>) returns (vind: seq<nat>)
    ensures vind == PositionIndices(corners)
  {
    vind := [];
    var i := 0;
    while i < |corners|
      invariant 0 <= i <= |corners|
      invariant vind == PositionIndices(corners[..i])
    {
      assert corners[..i + 1] == corners[..i] + [corners[i]];
      PositionIndicesAppend(corners[..i], [corners[i]]);
      PositionIndicesOne(corners[i]);
      if corners[i].v >= 0 {
        vind := vind + [corners[i].v];
      }
      i := i + 1;
    }
    assert corners[..|corners|] == corners;
  }
}
