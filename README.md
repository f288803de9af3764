# Wavefront OBJ loader — a Dafny model

This project models `carregarOBJParaDisplayList` from `src/obj_loader.cpp`
together with its helpers `idx0`, `dividirPorBarra`, `lerInt` and
`parseCanto`. The loader reads an OBJ file line by line and works in four
stages:

1. It collects positions (`v`), file normals (`vn`) and texture coordinates
   (`vt`) into flat float pools.
2. It resolves every face corner (`v`, `v/vt`, `v//vn`, `v/vt/vn`, with
   negative indices counted from the end of the pools as they stand at that
   line) into a `CantoTri`. Each face is fan-triangulated into `triangulos`.
   The position indices of each face are fanned separately into `indicesPos`.
3. It accumulates face normals per vertex and normalises them, falling back
   to (0,0,1).
4. It compiles a display list that issues, per corner, a normal, a texture
   coordinate and a vertex.

Modules, one per file:

- `Wrappers` (wrappers.dfy): `Option`.
- `Text` (text.dfy): character classes and decimal digits.
- `Lexing` (lexing.dfy): the whitespace-separated words an `istringstream`
  yields, and reading up to n floats from them.
- `Corner` (corner.dfy): `idx0`, `dividirPorBarra`, `lerInt` and
  `parseCanto`, plus the `CantoTri` record of `src/obj_loader.h`.
- `Fans` (fan.dfy): fan triangulation, as a function and as the loop that
  appends it.
- `ObjParse` (parse.dfy): the line loop as a specification function
  `ParseLines` over the four pools and `triangulos`, with the per-face
  loops as methods.
- `Normals` (normals.dfy):
  - the face normal, over reals;
  - per-vertex accumulation and normalisation as functions;
  - the in-place loops over an `array<real>` as methods proved against
    those functions.
- `Emission` (emit.dfy): the display list as a sequence of `GlCall`
  records, and the compiling loop.
- `ObjLoader` (loader.dfy): the class `ObjMesh`. Its fields are the
  caller's output vectors and the display list, and `Load` is
  `carregarOBJParaDisplayList`.

Behaviour of the loader a reader may not expect:

- A failed load does not leave earlier results in place. The code first
  clears all six output vectors.
- `triangulos` is appended to directly while parsing, so after a load that
  fails for lack of positions or position triangles it still holds the
  parsed corners.
- The display list is untouched on failure.
- A degenerate face (normal of length at most 1e-8) does not contribute
  zero. The code adds its unnormalised cross product, which is small but
  not necessarily zero. It is exactly zero, whatever the square root, for a face whose third point lies on the line through the
  first two (`DegenerateFace`) and for a face that names one position
  twice, such as `f 1 1 2` (`RepeatedCornerFace`).

## Model

| member | source | states |
|---|---|---|
| Corner.Idx0 | src/obj_loader.cpp:12-16 | `idx0`: the token 0 gives -1, and any in-range result is the element the token refers to (1-based from the front, or counted back from the end) |
| Corner.Idx0Refers | src/obj_loader.cpp:12-16 | an OBJ index i refers to the 0-based element k of a pool of `count` exactly when k == idx0(i, count) and k is in range: positive indices count from 1, negative ones from the end, 0 refers to nothing |
| Corner.Idx0Inverse | src/obj_loader.cpp:12-16 | every element k of the pool is reached both by the positive index k+1 and by the negative index k-count |
| Corner.Find | src/obj_loader.cpp:31-36 | `string::find` from a start position: a found index holds the character and is the first such at or after the start; `npos` (None) means no occurrence from the start on |
| Corner.DividirPorBarra | src/obj_loader.cpp:30-44 | with no '/' the whole token is `v` and the others are empty; with one '/' the token is v + "/" + vt and vn is empty; with two or more, the token is v + "/" + vt + "/" + vn, where v and vt hold no '/' |
| Corner.SplitOfJoin3 | src/obj_loader.cpp:30-44 | splitting "a/b/c" (a and b without '/') gives back exactly a, b, c |
| Corner.SplitOfJoin2 | src/obj_loader.cpp:30-44 | splitting "a/b" (a and b without '/') gives back a, b and an empty third part |
| Corner.LerInt | src/obj_loader.cpp:47-50 | the empty string is rejected, and any accepted value fits in a 32-bit int |
| Corner.StoI | src/obj_loader.cpp:49 | `stoi` after the leading whitespace: an optional sign and the longest digit run; any accepted value fits in a 32-bit int |
| Corner.StoIOfNat | src/obj_loader.cpp:49 | the digits of a natural number m, alone or after '-', followed by any non-digit tail, read back as m or -m exactly when that fits in 32 bits, and are rejected otherwise |
| Corner.StoIOfPlus | src/obj_loader.cpp:49 | the digits of a natural number m after '+', followed by any non-digit tail, read back as m exactly when m fits in 32 bits, and are rejected otherwise |
| Corner.UnreadableRejected | src/obj_loader.cpp:46-50 | a token with no digit after the leading whitespace and an optional sign is rejected (`stoi` throws `invalid_argument`) |
| Corner.LerIntOutOfRange | src/obj_loader.cpp:46-50 | the spelling of any integer outside the 32-bit range, followed by any non-digit tail, is rejected (`stoi` throws `out_of_range`) |
| Corner.LerIntOfDec | src/obj_loader.cpp:47-50 | every 32-bit integer written in decimal, followed by any non-digit tail, reads back as itself |
| Corner.ResolveSlot | src/obj_loader.cpp:58-63 | one slot is -1 or in [0,count); a valid slot is exactly the element its sub-token refers to, and -1 exactly when the sub-token refers to no element |
| Corner.ParseCanto | src/obj_loader.cpp:53-65 | each of v, vt and vn is -1 or in range of its pool, and equals the element that the matching part of `dividirPorBarra` refers to |
| Corner.EmptySubTokenAbsent | src/obj_loader.cpp:53-65 | in "v//vn" the texture slot is absent and the position slot is resolved as for "v" alone |
| Corner.NegativeIndexResolves | src/obj_loader.cpp:14 | the corner "-k" with 1 <= k <= vcount resolves to position vcount-k and no texture or normal |
| Corner.PlainToken | src/obj_loader.cpp:53-65 | a token without '/' yields only a position slot: the texture and normal slots are absent |
| Fans.Fan | src/obj_loader.cpp:112-118 | a fan of fewer than 3 corners is empty, otherwise it holds 3(N-2) corners; its length is a multiple of 3 and it uses only the face's corners |
| Fans.FanTriangle | src/obj_loader.cpp:113-117 | triangle k-2 of the fan is (c[0], c[k-1], c[k]) |
| Fans.FanSnoc | src/obj_loader.cpp:113-117 | one more loop round appends exactly (c[0], c[k-1], c[k]) |
| Fans.AppendFan | src/obj_loader.cpp:113-117 | the loop appends exactly the fan of the corners to the list |
| Lexing.Words | src/obj_loader.cpp:95-96 | the words `ls >> tok` and `ls >> fstr` read from a line: each is non-empty and holds no whitespace |
| Lexing.WordsOfJoin | src/obj_loader.cpp:95-96 | reading the words of a line of space-separated non-empty words gives back those words |
| Lexing.ReadFloat | src/obj_loader.cpp:98-102 | one `ls >> x` on a word; an empty word is never a number |
| Lexing.ReadCoords | src/obj_loader.cpp:97-102 | reading n coordinates always yields n values; missing values and every value from the first unreadable one on stay 0 |
| Lexing.ReadCoordsAllRead | src/obj_loader.cpp:97-102 | when the first n words all read as numbers, the n coordinates are exactly those numbers, whatever words follow (as in `vt u v w` or `v x y z w`) |
| Lexing.ReadCoordsShortLine | src/obj_loader.cpp:97-102 | a line with fewer words than coordinates, all of them numbers, gives those numbers followed by zeros (`v 1 2` gives (1, 2, 0)) |
| ObjParse.ParseCantos | src/obj_loader.cpp:109-110 | one corner per face token, each resolved against the same pool sizes |
| ObjParse.ParseCorners | src/obj_loader.cpp:109-110 | the corner loop yields exactly those corners |
| ObjParse.PositionIndices | src/obj_loader.cpp:120-121 | `vind` holds one entry per corner with a position (its length is the corner count minus the unpositioned corners); an index is in it exactly when some corner has it as its position; when every corner has a position, entry i is corner i's (order and multiplicity in general: `PositionIndicesOne`, `PositionIndicesAppend`) |
| ObjParse.PositionIndicesOne | src/obj_loader.cpp:121 | one corner contributes `[v]` when it has a position and nothing otherwise |
| ObjParse.PositionIndicesAppend | src/obj_loader.cpp:120-121 | `vind` of two runs of corners is the `vind` of the first followed by that of the second, so with `PositionIndicesOne` it keeps exactly the positioned corners' positions, in corner order, each as often as it occurs |
| ObjParse.CollectPositions | src/obj_loader.cpp:120-121 | the loop keeps exactly the position indices of the corners that have one, in order |
| ObjParse.StepFace | src/obj_loader.cpp:103-129 | an `f` line leaves the attribute pools alone, only appends to `triangulos` and `tempIdx`, and adds 3·(k−2) corners for k ≥ 3 tokens and none for fewer (see also `ShortFace`, `FaceTriangles`, `FacePositions`) |
| ObjParse.StepLine | src/obj_loader.cpp:94-129 | one round of the line loop; its effect is stated by `IgnoredLine`, `StepLineExtends`, `StepIdx` and `StepWellFormed` |
| ObjParse.ParseLines | src/obj_loader.cpp:93-130 | the whole line loop over the pools and `triangulos`; its results are stated by `ParseLinesWellFormed`, `PoolSizes`, `ParseLinesExtends` and `NoPositionTriangles` |
| ObjParse.CornersInRange | src/obj_loader.cpp:106-110 | every parsed corner's slots are -1 or valid for the pools at the time of the face line |
| ObjParse.PositionsInRange | src/obj_loader.cpp:120-128 | every position index fanned into `indicesPos` is a valid position |
| ObjParse.StepFaceWellFormed | src/obj_loader.cpp:103-129 | a face line keeps `indicesPos` valid with length a multiple of 3 and all of `triangulos` in range |
| ObjParse.ParseLinesWellFormed | src/obj_loader.cpp:93-130 | after the whole file, `indicesPos` holds valid position indices only and its length is a multiple of 3, and every corner of `triangulos` is in range |
| ObjParse.PoolSizes | src/obj_loader.cpp:97-102 | the pools hold 3 floats per `v` line, 3 per `vn` line and 2 per `vt` line |
| ObjParse.IgnoredLine | src/obj_loader.cpp:94-103 | a blank line, a '#' comment or an unknown directive changes nothing |
| ObjParse.ShortFace | src/obj_loader.cpp:105 | a face with fewer than 3 tokens changes nothing |
| ObjParse.FaceTriangles | src/obj_loader.cpp:103-118 | a face of N >= 3 tokens leaves the pools alone and appends its fan, 3(N-2) corners, to `triangulos` |
| ObjParse.FacePositions | src/obj_loader.cpp:120-128 | a face appends the fan of its M positioned corners, 3(M-2) indices or none when M < 3, to `indicesPos` |
| ObjParse.NegativeIndexAtFaceTime | src/obj_loader.cpp:106-110 | "f -k -k -k" appends the corner at position VCount-k, counted on the pools as they are when the face line is read |
| ObjParse.StepLineExtends | src/obj_loader.cpp:93-130 | no line removes anything: every pool and `triangulos` only grow |
| ObjParse.ParseLinesExtends | src/obj_loader.cpp:93-130 | reading more lines only extends what earlier lines produced |
| ObjParse.StepIdx | src/obj_loader.cpp:122-128 | a line changes `indicesPos` exactly when it is a face with at least 3 positioned corners |
| ObjParse.NoPositionTriangles | src/obj_loader.cpp:122-133 | `indicesPos` ends empty exactly when no line is a face with at least 3 positioned corners |
| Normals.FaceNormal | src/obj_loader.cpp:19-27 | `calcularNormalFace`; its meaning is stated by `FaceNormalAlongCross`, `FaceNormalPerpendicular` and `DegenerateFace` |
| Normals.FaceNormalAlongCross | src/obj_loader.cpp:19-27 | the face normal is a positive multiple of (B−A)×(C−A): along it, with the winding A, B, C, and non-zero for a non-degenerate face, whatever `sqrt` returns |
| Normals.CrossPerpendicular | src/obj_loader.cpp:22-24 | the cross product is orthogonal to both edges |
| Normals.FaceNormalPerpendicular | src/obj_loader.cpp:19-27 | the face normal, scaled or not, is orthogonal to both edges of the face |
| Normals.ZeroCrossNormal | src/obj_loader.cpp:19-27 | a face whose cross product (B−A)×(C−A) is zero gets the zero normal, whatever the square root returns |
| Normals.DegenerateFace | src/obj_loader.cpp:19-27 | a face whose third point lies on the line of the first edge gets the zero normal |
| Normals.RepeatedCornerFace | src/obj_loader.cpp:19-27 | a face with two equal corners (any two of A, B, C) gets the zero normal |
| Normals.AddAt | src/obj_loader.cpp:154-156 | adding to one vertex's triple changes that triple by the face normal and nothing else |
| Normals.AddFace | src/obj_loader.cpp:149-156 | one triangle leaves the buffer's length alone; slot by slot (`AddFaceSlot`) each triple gains the face normal once per corner of the triangle that names it, and nothing when a position is out of range |
| Normals.Accumulate | src/obj_loader.cpp:145-157 | the buffer after the first t triangles, as long as `vertices`; slot by slot it is stated by `AccumulateAt` |
| Normals.AccumulateAt | src/obj_loader.cpp:145-157 | after the accumulation loop each vertex's triple is its start value plus the sum of the normals of the faces that use it |
| Normals.FaceSumUntouched | src/obj_loader.cpp:145-157 | a vertex used by no triangle receives nothing |
| Normals.AccumulateNormals | src/obj_loader.cpp:145-157 | the in-place loop over `normaisCalculadas` computes exactly that accumulation, skipping out-of-range triangles |
| Normals.AddTriangle | src/obj_loader.cpp:146-156 | one round of the accumulation loop changes the buffer exactly as `AddFace` says: nothing for an out-of-range triangle, else the face normal added at ia, ib and ic |
| Normals.NormalizeSlot | src/obj_loader.cpp:159-162 | a triple of length at most 1e-8 becomes (0,0,1); a longer one becomes a positive multiple of itself |
| Normals.Normalized | src/obj_loader.cpp:158-163 | the normalisation pass keeps the buffer's length; slot by slot it is stated by `NormalizedAt` |
| Normals.NormalizedAt | src/obj_loader.cpp:158-163 | after normalisation each triple is its own value divided by its length when that exceeds 1e-8, else (0,0,1) |
| Normals.NormalizeNormals | src/obj_loader.cpp:158-163 | the in-place normalising loop computes exactly that, triple by triple |
| Normals.VertexNormals | src/obj_loader.cpp:144-163 | the computed normals have exactly as many floats as `vertices` |
| Normals.VertexNormalAt | src/obj_loader.cpp:144-163 | each computed vertex normal is the normalised sum of its faces' normals |
| Normals.IsolatedPositionFallback | src/obj_loader.cpp:162 | a position used by no triangle gets the normal (0,0,1) |
| Emission.NormalCall | src/obj_loader.cpp:184-188 | at most one `glNormal3fv`, issued exactly when the file has normals and the corner a `vn`, or else the corner has a position |
| Emission.TexCall | src/obj_loader.cpp:189-191 | at most one `glTexCoord2fv`, issued exactly when the file has texture coordinates and the corner a `vt` |
| Emission.VertexCall | src/obj_loader.cpp:192-194 | a `glVertex3fv` of the corner's position exactly when it has one |
| Emission.EmitCorner | src/obj_loader.cpp:183-194 | one corner issues at most three calls, all normal, texture-coordinate or vertex calls, and a corner with a position ends with its `glVertex3fv` (the choice of normal and texture coordinate is stated by `FileNormalFirst`, `ComputedNormalFallback`, `NoNormalWithoutSource`, `TexCoordWhenPresent`, `EmptyCorner`) |
| Emission.Emit | src/obj_loader.cpp:177-197 | the triangles block holds only per-corner normal, texture-coordinate and vertex calls (its positions are stated by `EmittedPositions`, `TrianglesAligned`, `VertexCount`) |
| Emission.DisplayList | src/obj_loader.cpp:170-200 | the first five calls are the matrix push, fill mode, culling off, the white colour and glBegin; the last two are glEnd and the matrix pop; every call between them is a per-corner call; glBegin and glEnd occur nowhere else |
| Emission.EmittedPositions | src/obj_loader.cpp:181-197 | the vertices the list issues are the positions of the corners that have one, in `triangulos` order |
| Emission.AllPositioned | src/obj_loader.cpp:192-194 | when every corner has a position, the i-th issued vertex is the position of corner i |
| Emission.TrianglesAligned | src/obj_loader.cpp:181 | when every corner has a position, 3·floor(n/3) vertices are issued, in order, and a trailing partial triangle is dropped |
| Emission.PositionCount | src/obj_loader.cpp:192-194 | each corner with a position contributes exactly one position, the others none |
| Emission.VertexCount | src/obj_loader.cpp:181-197 | the triangles block issues as many vertices as there are corners with a position among the complete triangles |
| Emission.UnpositionedCornerShiftsTriangles | src/obj_loader.cpp:181-194 | a corner without a position is dropped rather than replaced: with exactly one such corner the vertex count leaves remainder 2 modulo 3, so later triangles are assembled from shifted vertices |
| Emission.FileNormalFirst | src/obj_loader.cpp:184-185 | a corner with a file normal issues that normal first |
| Emission.ComputedNormalFallback | src/obj_loader.cpp:186-187 | without a file normal, a corner with a position issues its computed normal first and its position last |
| Emission.NoNormalWithoutSource | src/obj_loader.cpp:184-188 | a corner with neither a usable file normal nor a position issues no normal |
| Emission.TexCoordWhenPresent | src/obj_loader.cpp:189-191 | a corner issues a texture coordinate exactly when the file has `vt` records and the corner's vt is valid, and it is that record |
| Emission.EmptyCorner | src/obj_loader.cpp:182-195 | a corner with no valid slot issues nothing |
| Emission.CornerCalls | src/obj_loader.cpp:183-194 | the branches of the corner body issue exactly the corner's calls |
| Emission.CompileTriangles | src/obj_loader.cpp:177-197 | the nested loops issue exactly the corner calls of all complete triangles, in order |
| ObjLoader.ParsedReadable | src/obj_loader.cpp:183-194 | every array read the display list makes for a parsed corner is in bounds |
| ObjLoader.ParsedTrianglesNeverSkipped | src/obj_loader.cpp:149 | the bounds guard of the normal loop never fires for a parsed file |
| ObjLoader.LoadSucceeds | src/obj_loader.cpp:133 | the success test: some position was read and some face added a position triangle; characterised by `LoadFailsIff` |
| ObjLoader.LoadFailsIff | src/obj_loader.cpp:133-136 | the load fails exactly when the file has no `v` line or no face with at least 3 positioned corners |
| ObjLoader.ObjMesh.constructor | src/obj_loader.h:23-32 | the caller's output vectors start empty and no display list exists yet |
| ObjLoader.ObjMesh.ReadLines | src/obj_loader.cpp:93-130 | the line loop produces exactly the pools and `triangulos` of `ParseLines` |
| ObjLoader.ObjMesh.ReadLine | src/obj_loader.cpp:94-129 | one loop round performs exactly one line's step |
| ObjLoader.ObjMesh.ComputeNormals | src/obj_loader.cpp:143-163 | `normaisCalculadas` becomes exactly the normalised per-vertex sums of face normals, as long as `vertices` |
| ObjLoader.ObjMesh.CompileDisplayList | src/obj_loader.cpp:170-200 | the display list holds the matrix push, fill mode, culling off, white colour and glBegin, then the emitted corners of every complete triangle, then glEnd and the matrix pop |
| ObjLoader.ObjMesh.Load | src/obj_loader.cpp:67-209 | returns true exactly when the file opens and the load succeeds. On failure the five vectors are empty, `triangulos` keeps what was parsed and the display list is untouched. On success the vectors are the pools, the computed normals are `VertexNormals` of them with the same length as `vertices`, and the display list holds the prologue, the emitted corners and the epilogue |

## Left out

- `src/main.cpp` (window and GLUT set-up) is not part of this model.
- File access and logging: opening the file is a parameter `Option<seq<string>>`, where `None` is a file that cannot be opened. The messages to `cerr` and `cout` are not modelled.
- Lexing.ReadFloat: it reads a token as an optional sign, digits and an optional fraction. It does not capture the full `operator>>` float grammar (exponents, `inf`, `nan`, partial tokens) or float rounding.
- Corner.LerInt: it reads like `stoi`: leading whitespace is skipped, an optional sign is taken, the longest digit prefix is read and any trailing text is ignored. A value outside the 32-bit range is rejected, as `stoi` throws `out_of_range`. Locale effects are not modelled.
- Normals: arithmetic is on real numbers, not 32-bit floats. `std::sqrt` is a parameter `sqrt`, and only `IsolatedPositionFallback` assumes anything of it: that `sqrt(0) == 0`. The threshold `1e-8f` is taken as the real number 1e-8.
- Normals.NormalizedAt: it does not state that the normalised vectors have unit length, because that depends on `sqrt` being a true square root.
- Emission: OpenGL state and the `glGenLists`/`glDeleteLists` identifiers are left out. The display list is modelled by its contents, a sequence of call records. Deleting an old list and allocating a new id are not represented.
- Emission.CompileTriangles: array reads are modelled as in-bounds (`ParsedReadable`); the source never reads out of range for a parsed file.
- ObjParse and Normals: the casts `(int)`, `(unsigned int)` and the 32-bit unsigned index arithmetic `indicesPos[i] * 3u`, `ia+1`, `ia+2` are not modelled for overflow. Pool sizes and indices are unbounded integers. This agrees with the code while every position index is below 1431655765 (about 1.43·10^9); from that index on the unsigned products wrap, and `normaisCalculadas[ia+1]` writes near slot 0.
- `reserve` calls and the `vector::swap` mechanics: only the resulting contents are modelled.
