/**
 * Per-position fallback normals of the OBJ loader: every position-index
 * triangle adds its face normal to the slots of its three positions, then
 * every slot is normalised, or set to (0,0,1) when too short.
 *
 * Coordinates are reals. Real arithmetic has no square root, so the
 * `std::sqrt` the loader calls is a parameter `sqrt`; the lemmas that need
 * it rely only on sqrt(0) == 0. The accumulation is stated for any face
 * normal function `face`; the loader uses FaceNormalOf(sqrt).
 */
module Normals {

  datatype Vec3 = Vec3(x: real, y: real, z: real)

  type FaceFn = (Vec3, Vec3, Vec3) -> Vec3

  const Zero := Vec3(0.0, 0.0, 0.0)

  /** The fallback normal of the normalisation loop. */
  const Up := Vec3(0.0, 0.0, 1.0)

  /** A vector is normalised only when its length exceeds 1e-8. */
  const MinLen: real := 1.0 / 100_000_000.0

  function Add(a: Vec3, b: Vec3): Vec3 {
    Vec3(a.x + b.x, a.y + b.y, a.z + b.z)
  }

  function Sub(a: Vec3, b: Vec3): Vec3 {
    Vec3(a.x - b.x, a.y - b.y, a.z - b.z)
  }

  function Dot(a: Vec3, b: Vec3): real {
    a.x * b.x + a.y * b.y + a.z * b.z
  }

  function SqLen(a: Vec3): real {
    Dot(a, a)
  }

  /** `n / len`, the division of `calcularNormalFace` and of the normalisation loop. */
  function Scale(n: Vec3, len: real): Vec3
    requires len != 0.0
  {
    Vec3(n.x / len, n.y / len, n.z / len)
  }

  lemma DivProduct(a: real, b: real, l: real)
    requires l != 0.0
    ensures (a / l) * b == (a * b) / l
  {
    var q := a / l;
    assert q * l == a;
    assert (q * b) * l == (q * l) * b;
  }

  /** Dividing a vector by a non-zero length keeps it perpendicular to `u`. */
  lemma ScaleKeepsOrthogonal(n: Vec3, len: real, u: Vec3)
    requires len != 0.0 && Dot(n, u) == 0.0
    ensures Dot(Scale(n, len), u) == 0.0
  {
    DivProduct(n.x, u.x, len);
    DivProduct(n.y, u.y, len);
    DivProduct(n.z, u.z, len);
    assert Dot(Scale(n, len), u) == Dot(n, u) / len;
  }

  /** Cross product u x v. */
  function Cross(u: Vec3, v: Vec3): Vec3 {
    Vec3(u.y * v.z - u.z * v.y, u.z * v.x - u.x * v.z, u.x * v.y - u.y * v.x)
  }

  /** u x v is perpendicular to u and to v. */
  lemma CrossPerpendicular(u: Vec3, v: Vec3)
    ensures Dot(Cross(u, v), u) == 0.0 && Dot(Cross(u, v), v) == 0.0
  {
  }

  /** The cross product of parallel vectors is zero. */
  lemma CrossParallel(u: Vec3, t: real)
    ensures Cross(u, Vec3(t * u.x, t * u.y, t * u.z)) == Zero
  {
    assert u.y * (t * u.z) == u.z * (t * u.y);
    assert u.z * (t * u.x) == u.x * (t * u.z);
    assert u.x * (t * u.y) == u.y * (t * u.x);
  }

  /** `calcularNormalFace`: (B - A) x (C - A), divided by its length when that exceeds 1e-8. */
  function FaceNormal(a: Vec3, b: Vec3, c: Vec3, sqrt: real -> real): Vec3 {
    var n := Cross(Sub(b, a), Sub(c, a));
    var len := sqrt(SqLen(n));
    if len > MinLen then Scale(n, len) else n
  }

  /** `calcularNormalFace` as a value, for a given square root. */
  function FaceNormalOf(sqrt: real -> real): FaceFn {
    (a: Vec3, b: Vec3, c: Vec3) => FaceNormal(a, b, c, sqrt)
  }

  /** The scalar multiple t·v. */
  function Times(t: real, v: Vec3): Vec3 {
    Vec3(t * v.x, t * v.y, t * v.z)
  }

  lemma DivIsTimes(a: real, l: real)
    requires l != 0.0
    ensures a / l == (1.0 / l) * a
  {
  }

  /** Dividing by a positive length is multiplying by a positive factor. */
  lemma ScaleIsTimes(n: Vec3, len: real)
    requires len > 0.0
    ensures 1.0 / len > 0.0 && Scale(n, len) == Times(1.0 / len, n)
  {
    DivIsTimes(n.x, len);
    DivIsTimes(n.y, len);
    DivIsTimes(n.z, len);
  }

  /** A positive multiple of a non-zero vector is non-zero. */
  lemma TimesNonZero(t: real, v: Vec3)
    requires t > 0.0 && v != Zero
    ensures Times(t, v) != Zero
  {
    if v.x != 0.0 {
      assert Times(t, v).x != 0.0;
    } else if v.y != 0.0 {
      assert Times(t, v).y != 0.0;
    } else {
      assert v.z != 0.0;
      assert Times(t, v).z != 0.0;
    }
  }

  /**
   * The face normal is a positive multiple of (B - A) x (C - A): it lies
   * along that cross product and points the same way, so it follows the
   * winding A, B, C, and it is non-zero for a non-degenerate face. This
   * holds for any `sqrt`: the division happens only by a length above 1e-8.
   */
  lemma FaceNormalAlongCross(a: Vec3, b: Vec3, c: Vec3, sqrt: real -> real)
    ensures exists t: real :: t > 0.0 && FaceNormal(a, b, c, sqrt) == Times(t, Cross(Sub(b, a), Sub(c, a)))
    ensures Cross(Sub(b, a), Sub(c, a)) != Zero ==> FaceNormal(a, b, c, sqrt) != Zero
  {
    var n := Cross(Sub(b, a), Sub(c, a));
    var len := sqrt(SqLen(n));
    if len > MinLen {
      ScaleIsTimes(n, len);
      if n != Zero {
        TimesNonZero(1.0 / len, n);
      }
    } else {
      assert n == Times(1.0, n);
    }
  }

  /** The face normal is perpendicular to both edges of the triangle, whatever `sqrt` returns. */
  lemma FaceNormalPerpendicular(a: Vec3, b: Vec3, c: Vec3, sqrt: real -> real)
    ensures Dot(FaceNormal(a, b, c, sqrt), Sub(b, a)) == 0.0
    ensures Dot(FaceNormal(a, b, c, sqrt), Sub(c, a)) == 0.0
  {
    var n := Cross(Sub(b, a), Sub(c, a));
    CrossPerpendicular(Sub(b, a), Sub(c, a));
    var len := sqrt(SqLen(n));
    if len > MinLen {
      ScaleKeepsOrthogonal(n, len, Sub(b, a));
      ScaleKeepsOrthogonal(n, len, Sub(c, a));
    }
  }

  /** A zero cross product gives the zero face normal, whatever the square root returns. */
  lemma ZeroCrossNormal(a: Vec3, b: Vec3, c: Vec3, sqrt: real -> real)
    requires Cross(Sub(b, a), Sub(c, a)) == Zero
    ensures FaceNormal(a, b, c, sqrt) == Zero
  {
    var len := sqrt(SqLen(Zero));
    if len > MinLen {
      assert Scale(Zero, len) == Zero;
    }
  }

  /** A degenerate triangle (C on the line through A and B) has the zero face normal. */
  lemma DegenerateFace(a: Vec3, b: Vec3, c: Vec3, t: real, sqrt: real -> real)
    requires Sub(c, a) == Vec3(t * (b.x - a.x), t * (b.y - a.y), t * (b.z - a.z))
    ensures FaceNormal(a, b, c, sqrt) == Zero
  {
    var u := Sub(b, a);
    CrossParallel(u, t);
    ZeroCrossNormal(a, b, c, sqrt);
  }

  /** A face that names one position twice (`f 1 1 2`, `f 1 2 1`, `f 1 2 2`) has the zero face normal. */
  lemma RepeatedCornerFace(a: Vec3, b: Vec3, c: Vec3, sqrt: real -> real)
    requires a == b || b == c || a == c
    ensures FaceNormal(a, b, c, sqrt) == Zero
  {
    var u := Sub(b, a);
    var n := Cross(u, Sub(c, a));
    if b == c {
      CrossParallel(u, 1.0);
      assert Sub(c, a) == Vec3(1.0 * u.x, 1.0 * u.y, 1.0 * u.z);
    } else if a == b {
      assert u == Zero;
    } else {
      assert Sub(c, a) == Zero;
    }
    assert n == Zero;
    ZeroCrossNormal(a, b, c, sqrt);
  }

  /** The triple stored at slot `j` of a flat xyz buffer. */
  function Triple(s: seq<real>, j: nat): Vec3
    requires 3 * j + 2 < |s|
  {
    Vec3(s[3 * j], s[3 * j + 1], s[3 * j + 2])
  }

  /** `acc[3j + 0..2] += n`. */
  function AddAt(acc: seq<real>, j: nat, n: Vec3): (r: seq<real>)
    requires 3 * j + 2 < |acc|
    ensures |r| == |acc|
    ensures Triple(r, j) == Add(Triple(acc, j), n)
    ensures forall i :: 0 <= i < |acc| && (i < 3 * j || 3 * j + 2 < i) ==> r[i] == acc[i]
  {
    acc[3 * j := acc[3 * j] + n.x][3 * j + 1 := acc[3 * j + 1] + n.y][3 * j + 2 := acc[3 * j + 2] + n.z]
  }

  /** Adding at slot `k` changes slot `j` only when k == j. */
  lemma AddAtSlot(acc: seq<real>, k: nat, n: Vec3, j: nat)
    requires 3 * k + 2 < |acc| && 3 * j + 2 < |acc|
    ensures Triple(AddAt(acc, k, n), j) == if k == j then Add(Triple(acc, j), n) else Triple(acc, j)
  {
  }

  /** Whether the triangle (ia, ib, ic) has a position outside `verts` (the `continue`). */
  predicate TriangleOutOfRange(verts: seq<real>, ia: nat, ib: nat, ic: nat) {
    3 * ia + 2 >= |verts| || 3 * ib + 2 >= |verts| || 3 * ic + 2 >= |verts|
  }

  /**
   * One iteration of the accumulation loop, for the triangle of positions
   * (ia, ib, ic): skipped when a position lies outside `verts`, otherwise
   * its face normal is added at ia, then ib, then ic.
   */
  function AddFace(verts: seq<real>, acc: seq<real>, ia: nat, ib: nat, ic: nat, face: FaceFn): (r: seq<real>)
    requires |acc| == |verts|
    ensures |r| == |acc|
  {
    if TriangleOutOfRange(verts, ia, ib, ic) then acc
    else
      var n := face(Triple(verts, ia), Triple(verts, ib), Triple(verts, ic));
      AddAt(AddAt(AddAt(acc, ia, n), ib, n), ic, n)
  }

  /** The accumulation buffer after the first `t` triangles of `idx`. */
  function Accumulate(verts: seq<real>, idx: seq<nat>, acc: seq<real>, t: nat, face: FaceFn): (r: seq<real>)
    requires 3 * t <= |idx| && |acc| == |verts|
    ensures |r| == |verts|
  {
    if t == 0 then acc
    else
      var s := t - 1;
      AddFace(verts, Accumulate(verts, idx, acc, s, face), idx[3 * s], idx[3 * s + 1], idx[3 * s + 2], face)
  }

  /** What triangle (ia, ib, ic) adds to slot `j`: its face normal once per corner at `j`. */
  function Contribution(verts: seq<real>, ia: nat, ib: nat, ic: nat, j: nat, face: FaceFn): Vec3 {
    if TriangleOutOfRange(verts, ia, ib, ic) then Zero
    else
      var n := face(Triple(verts, ia), Triple(verts, ib), Triple(verts, ic));
      Add(Add(if ia == j then n else Zero, if ib == j then n else Zero), if ic == j then n else Zero)
  }

  /** The sum over the first `t` triangles of `idx` of what each adds to slot `j`. */
  function FaceSum(verts: seq<real>, idx: seq<nat>, t: nat, j: nat, face: FaceFn): Vec3
    requires 3 * t <= |idx|
  {
    if t == 0 then Zero
    else
      var s := t - 1;
      Add(FaceSum(verts, idx, s, j, face), Contribution(verts, idx[3 * s], idx[3 * s + 1], idx[3 * s + 2], j, face))
  }

  /** One triangle step, seen from slot `j`. */
  lemma AddFaceSlot(verts: seq<real>, acc: seq<real>, ia: nat, ib: nat, ic: nat, j: nat, face: FaceFn)
    requires |acc| == |verts| && 3 * j + 2 < |verts|
    ensures Triple(AddFace(verts, acc, ia, ib, ic, face), j) == Add(Triple(acc, j), Contribution(verts, ia, ib, ic, j, face))
  {
    if !TriangleOutOfRange(verts, ia, ib, ic) {
      var n := face(Triple(verts, ia), Triple(verts, ib), Triple(verts, ic));
      var r1 := AddAt(acc, ia, n);
      var r2 := AddAt(r1, ib, n);
      AddAtSlot(acc, ia, n, j);
      AddAtSlot(r1, ib, n, j);
      AddAtSlot(r2, ic, n, j);
    }
  }

  /**
   * The in-place accumulation agrees, slot by slot, with the sum of the
   * face normals of the triangles that use the slot's position (a face
   * normal counted once per corner at that position).
   */
  lemma {:induction false} AccumulateAt(verts: seq<real>, idx: seq<nat>, acc: seq<real>, t: nat, j: nat, face: FaceFn)
    requires 3 * t <= |idx| && |acc| == |verts| && 3 * j + 2 < |verts|
    ensures Triple(Accumulate(verts, idx, acc, t, face), j) == Add(Triple(acc, j), FaceSum(verts, idx, t, j, face))
  {
    if t > 0 {
      var s := t - 1;
      var prev := Accumulate(verts, idx, acc, s, face);
      var ia, ib, ic := idx[3 * s], idx[3 * s + 1], idx[3 * s + 2];
      var before, added := FaceSum(verts, idx, s, j, face), Contribution(verts, ia, ib, ic, j, face);
      assert Accumulate(verts, idx, acc, t, face) == AddFace(verts, prev, ia, ib, ic, face);
      assert FaceSum(verts, idx, t, j, face) == Add(before, added);
      AccumulateAt(verts, idx, acc, s, j, face);
      AddFaceSlot(verts, prev, ia, ib, ic, j, face);
      AddAssoc(Triple(acc, j), before, added);
    }
  }

  lemma AddAssoc(a: Vec3, b: Vec3, c: Vec3)
    ensures Add(Add(a, b), c) == Add(a, Add(b, c))
  {
  }

  /** A slot no triangle uses receives nothing. */
  lemma {:induction false} FaceSumUntouched(verts: seq<real>, idx: seq<nat>, t: nat, j: nat, face: FaceFn)
    requires 3 * t <= |idx|
    requires forall i :: 0 <= i < 3 * t ==> idx[i] != j
    ensures FaceSum(verts, idx, t, j, face) == Zero
  {
    if t > 0 {
      var s := t - 1;
      FaceSumUntouched(verts, idx, s, j, face);
      assert idx[3 * s] != j && idx[3 * s + 1] != j && idx[3 * s + 2] != j;
    }
  }

  /** The normalisation of one slot: divided by its length when that exceeds 1e-8, (0,0,1) otherwise. */
  function NormalizeSlot(n: Vec3, sqrt: real -> real): (r: Vec3)
    ensures sqrt(SqLen(n)) <= MinLen ==> r == Up
    ensures sqrt(SqLen(n)) > MinLen ==> exists t: real :: t > 0.0 && r == Times(t, n)
  {
    var len := sqrt(SqLen(n));
    if len > MinLen then ScaleIsTimes(n, len); Scale(n, len) else Up
  }

  /** The normalisation loop over every complete xyz triple of `acc`. */
  function Normalized(acc: seq<real>, sqrt: real -> real): (r: seq<real>)
    ensures |r| == |acc|
    decreases |acc|
  {
    if |acc| < 3 then acc
    else
      var s := NormalizeSlot(Vec3(acc[0], acc[1], acc[2]), sqrt);
      [s.x, s.y, s.z] + Normalized(acc[3..], sqrt)
  }

  /** Slot `j` of the normalised buffer is the normalisation of slot `j` of the input. */
  lemma {:induction false} NormalizedAt(acc: seq<real>, j: nat, sqrt: real -> real)
    requires 3 * j + 2 < |acc|
    ensures Triple(Normalized(acc, sqrt), j) == NormalizeSlot(Triple(acc, j), sqrt)
  {
    if j > 0 {
      NormalizedAt(acc[3..], j - 1, sqrt);
    }
  }

  /** `normaisCalculadas`: zeros, then every triangle of `idx`, then the normalisation. */
  function VertexNormals(verts: seq<real>, idx: seq<nat>, sqrt: real -> real): (r: seq<real>)
    ensures |r| == |verts|
  {
    Normalized(Accumulate(verts, idx, seq(|verts|, _ => 0.0), |idx| / 3, FaceNormalOf(sqrt)), sqrt)
  }

  /**
   * The normal of position `j` is the normalised sum of the face normals
   * of the triangles of `idx` that use `j`.
   */
  lemma VertexNormalAt(verts: seq<real>, idx: seq<nat>, j: nat, sqrt: real -> real)
    requires 3 * j + 2 < |verts|
    ensures Triple(VertexNormals(verts, idx, sqrt), j)
         == NormalizeSlot(FaceSum(verts, idx, |idx| / 3, j, FaceNormalOf(sqrt)), sqrt)
  {
    var zeros := seq(|verts|, _ => 0.0);
    var acc := Accumulate(verts, idx, zeros, |idx| / 3, FaceNormalOf(sqrt));
    AccumulateAt(verts, idx, zeros, |idx| / 3, j, FaceNormalOf(sqrt));
    assert Triple(zeros, j) == Zero;
    NormalizedAt(acc, j, sqrt);
  }

  /** A position that belongs to no triangle gets the fallback normal (0,0,1). */
  lemma IsolatedPositionFallback(verts: seq<real>, idx: seq<nat>, j: nat, sqrt: real -> real)
    requires sqrt(0.0) == 0.0
    requires 3 * j + 2 < |verts|
    requires j !in idx
    ensures Triple(VertexNormals(verts, idx, sqrt), j) == Up
  {
    VertexNormalAt(verts, idx, j, sqrt);
    forall i | 0 <= i < 3 * (|idx| / 3) ensures idx[i] != j {
      assert idx[i] in idx;
    }
    FaceSumUntouched(verts, idx, |idx| / 3, j, FaceNormalOf(sqrt));
    assert SqLen(Zero) == 0.0;
  }

  /** The accumulation over `t + 1` triangles is one AddFace after `t`. */
  lemma AccumulateStep(verts: seq<real>, idx: seq<nat>, acc: seq<real>, t: nat, face: FaceFn,
                       prev: seq<real>, ia: nat, ib: nat, ic: nat)
    requires 3 * t + 2 < |idx| && |acc| == |verts|
    requires prev == Accumulate(verts, idx, acc, t, face)
    requires ia == idx[3 * t] && ib == idx[3 * t + 1] && ic == idx[3 * t + 2]
    ensures Accumulate(verts, idx, acc, t + 1, face) == AddFace(verts, prev, ia, ib, ic, face)
  {
  }

  /**
   * The accumulation loop, in place on the buffer `n` of `normaisCalculadas`:
   * `for i = 0; i + 2 < |indicesPos|; i += 3`, adding each face normal to
   * the three slots of its positions.
   */
  method AccumulateNormals(vertices: seq<real>, indicesPos: seq<nat>, n: array<real>, face: FaceFn)
    requires n.Length == |vertices|
    modifies n
    ensures n[..] == Accumulate(vertices, indicesPos, old(n[..]), |indicesPos| / 3, face)
  {
    var i, t := 0, 0;
    while i + 2 < |indicesPos|
      invariant i == 3 * t && 3 * t <= |indicesPos|
      invariant n[..] == Accumulate(vertices, indicesPos, old(n[..]), t, face)
    {
      var ia, ib, ic := indicesPos[i], indicesPos[i + 1], indicesPos[i + 2];
      AccumulateStep(vertices, indicesPos, old(n[..]), t, face, n[..], ia, ib, ic);
      AddTriangle(vertices, n, ia, ib, ic, face);
      i, t := i + 3, t + 1;
    }
    assert t == |indicesPos| / 3;
  }

  /** One round of the accumulation loop, for the triangle of positions (ia, ib, ic). */
  method AddTriangle(vertices: seq<real>, n: array<real>, ia: nat, ib: nat, ic: nat, face: FaceFn)
    requires n.Length == |vertices|
    modifies n
    ensures n[..] == AddFace(vertices, old(n[..]), ia, ib, ic, face)
  {
    if 3 * ia + 2 >= |vertices| || 3 * ib + 2 >= |vertices| || 3 * ic + 2 >= |vertices| {
      assert TriangleOutOfRange(vertices, ia, ib, ic);
      return;
    }
    var f := face(Triple(vertices, ia), Triple(vertices, ib), Triple(vertices, ic));
    AddInPlace(n, ia, f);
    AddInPlace(n, ib, f);
    AddInPlace(n, ic, f);
  }

  /** `n[3j + 0..2] += f`. */
  method AddInPlace(n: array<real>, j: nat, f: Vec3)
    requires 3 * j + 2 < n.Length
    modifies n
    ensures n[..] == AddAt(old(n[..]), j, f)
  {
    n[3 * j] := n[3 * j] + f.x;
    n[3 * j + 1] := n[3 * j + 1] + f.y;
    n[3 * j + 2] := n[3 * j + 2] + f.z;
  }

  /**
   * The normalisation loop, in place: `for v = 0; v + 2 < |n|; v += 3`,
   * replacing each slot by its normalisation.
   */
  method NormalizeNormals(n: array<real>, sqrt: real -> real)
    modifies n
    ensures n[..] == Normalized(old(n[..]), sqrt)
  {
    var v := 0;
    while v + 2 < n.Length
      invariant 0 <= v <= n.Length
      invariant n[v..] == old(n[..])[v..]
      invariant n[..v] + Normalized(n[v..], sqrt) == Normalized(old(n[..]), sqrt)
    {
      NormalizeSlotAt(n, v, sqrt);
      v := v + 3;
    }
    assert n[..] == n[..v] + n[v..];
  }

  /**
   * The body of the normalisation loop, for the slot starting at `v`: the
   * slot is replaced by its normalisation, the rest of `n` is unchanged.
   */
  method NormalizeSlotAt(n: array<real>, v: nat, sqrt: real -> real)
    requires v + 2 < n.Length
    modifies n
    ensures n[..v] == old(n[..v]) && n[v + 3..] == old(n[v + 3..])
    ensures n[..v + 3] + Normalized(n[v + 3..], sqrt) == old(n[..v]) + Normalized(old(n[v..]), sqrt)
  {
    ghost var before := n[..];
    var nx, ny, nz := n[v], n[v + 1], n[v + 2];
    var len := sqrt(SqLen(Vec3(nx, ny, nz)));
    if len > MinLen {
      n[v], n[v + 1], n[v + 2] := nx / len, ny / len, nz / len;
    } else {
      n[v], n[v + 1], n[v + 2] := 0.0, 0.0, 1.0;
    }
    ghost var s := NormalizeSlot(Vec3(nx, ny, nz), sqrt);
    assert n[v] == s.x && n[v + 1] == s.y && n[v + 2] == s.z;
    assert n[..v] == before[..v] && n[v + 3..] == before[v + 3..];
    SlotNormalized(before, n[..], v, s, sqrt);
  }

  /** Replacing the slot at `v` by its normalisation moves it from the unnormalised to the normalised part. */
  lemma SlotNormalized(before: seq<real>, after: seq<real>, v: nat, s: Vec3, sqrt: real -> real)
    requires v + 2 < |before| == |after|
    requires after[..v] == before[..v] && after[v + 3..] == before[v + 3..]
    requires s == NormalizeSlot(Vec3(before[v], before[v + 1], before[v + 2]), sqrt)
    requires after[v] == s.x && after[v + 1] == s.y && after[v + 2] == s.z
    ensures after[..v + 3] + Normalized(after[v + 3..], sqrt) == before[..v] + Normalized(before[v..], sqrt)
  {
    var rest := before[v..];
    assert rest[3..] == before[v + 3..];
    assert Normalized(rest, sqrt) == [s.x, s.y, s.z] + Normalized(rest[3..], sqrt);
    assert after[..v + 3] == before[..v] + [s.x, s.y, s.z];
  }
}
