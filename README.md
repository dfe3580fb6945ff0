# fps raycaster: a verified model of the ray caster's core

The program is a small first-person ray caster written in Go
(`main.go`). A level is a grid of tiles parsed from text. For every screen
column, `render` casts one ray against every non-empty cell. Each cell is a
unit square with four wall faces: `rayBox` tests the four faces with the
ray/segment intersection `rayLine`. The nearest hit gives that column's
distance, the position `mu` along the face, and the tile whose texture is
drawn, which `textureFor` looks up.

This project models that core in Dafny and proves what it computes:

- `tiles.dfy` (`Tiles`): the tile kinds and `textureFor`.
- `tilemap.dfy` (`TileMap`): `strings.Split` on newlines and the
  imperative `mapFromString`. The parse is a method with nested loops over
  an array of rows, proved against the line-splitting function. The lemmas
  show that the split is the unique newline-free decomposition, and that
  joining it back gives the text.
- `intersector.dfy` (`Intersector`): `rayLine` over the reals, soundness
  and completeness against the geometry, the four faces of a cell, and
  `rayBox` as a loop proved against a reference "first nearest hit"
  function.
- `caster.dfy` (`Caster`): the closest-hit double loop of `render`, proved
  to keep the first of the nearest cells in row-major order, and the
  drawing decision after it.
- `wrappers.dfy` (`Wrappers`): `Option`.

Floating-point numbers are modelled as reals. `math.Sqrt(xd*xd+yd*yd)` is
a parameter `norm`, required to satisfy `norm > 0 && norm * norm == xd*xd + yd*yd`.

The code and its natural reading disagree, and the model follows the code:

- The natural reading of `rayLine` is the textbook one: a hit at
  `origin + lambda * d`, at parameter `mu` from the face's first end
  towards its second.
- The determinant formulas at main.go:124 and main.go:129 solve for the
  negated parameters. A hit is the point `origin - lambda * d`, which is
  also `p1 - mu * (p2 - p1)` (`RayLineSound`, `RayLineComplete`).
- So the four faces of cell (x, y), listed at main.go:140-145, are the edges
  of the square [x - 1, x] x [y - 1, y]. They are not the edges of
  [x, x + 1] x [y, y + 1] (`FacesOnSquare`, `SquareOnFaces`,
  `BoxHitSound`).
- Example, under the textbook reading: the ray from (0.5, 0.5) with
  direction (0, -1) hits the first face of cell (0, -1) at distance 1.5.
  The code computes lambda = -1.5 there and reports a miss
  (`RayLineExampleMiss`). In fact the whole cell, the square
  [-1, 0] x [-2, -1], lies behind the ray, so the cell is not hit at all
  (`BoxHitExampleMiss`).

## Model

| member | source | states |
|---|---|---|
| Tiles.TextureFor | main.go:355-364 | `wall1` gets "wall" and `wall2` gets "wall-2", each exactly; every other tile, `empty` included, is the panic (None) |
| Tiles.TextureForInjective | main.go:355-364 | the two wall kinds get distinct textures |
| Tiles.WellFormedLevelHasTextures | main.go:355-364 | on a level of named tile kinds, every non-empty tile has a texture |
| TileMap.Lines | main.go:171 | `strings.Split(s, "\n")` gives one more piece than `s` has newlines |
| TileMap.JoinLinesOfLines | main.go:171 | joining the pieces with newlines gives back the text |
| TileMap.LinesHaveNoNewlines | main.go:171 | no piece contains a newline |
| TileMap.LinesUnique | main.go:171 | any non-empty newline-free list of pieces that joins to `s` is the split of `s` |
| TileMap.LinesOfNewlineFree | main.go:171 | text without a newline splits into itself alone |
| TileMap.MapFromString | main.go:169-194 | one row per line and one tile per byte of the line; byte '1' is `wall1`, byte '2' is `wall2`, and every other byte is `empty`, in both directions; so every tile is a named kind |
| Intersector.MuDen | main.go:129 | the mu denominator is the lambda denominator negated |
| Intersector.RayLine | main.go:123-137 | a hit has 0 <= mu <= 1 and dist > 0; a miss is `0, 0, false`; a ray parallel to the face misses |
| Intersector.RayLineParameters | main.go:124-134 | a hit reports lambda / norm and mu, the two determinant quotients |
| Intersector.CramerSolution | main.go:124-129 | the two quotients name one point: `origin - lambda * d == p1 - mu * (p2 - p1)` |
| Intersector.RayLineSound | main.go:123-137 | every hit is a real intersection: at parameter dist * norm > 0 the ray meets the face at mu in [0, 1] |
| Intersector.SolutionParameters | main.go:124-129 | a common point at parameters t and m makes t and m the two quotients |
| Intersector.RayLineOfParameters | main.go:124-136 | in-range quotients make `rayLine` report the hit (t / norm, m) |
| Intersector.RayLineComplete | main.go:123-137 | every intersection with a non-parallel face at t > 0 and m in [0, 1] is reported, at distance t / norm and with mu = m |
| Intersector.DistanceAlong | main.go:134 | the point at parameter t is t^2 * norm^2 away from the origin, squared; so dist is the Euclidean distance for a unit direction |
| Intersector.Faces | main.go:140-145 | exactly four faces per cell, in the order `rayBox` tests them; where they lie is stated by `FacesOnSquare` and `SquareOnFaces` |
| Intersector.FacesOnSquare | main.go:140-145 | every face point with mu in [0, 1] lies on the boundary of [cx - 1, cx] x [cy - 1, cy] |
| Intersector.SquareOnFaces | main.go:140-145 | every point of that boundary is on some face, at some mu in [0, 1] |
| Intersector.NearestIsFirstNearest | main.go:153-164 | the reference selection gives a miss iff no candidate hits, and otherwise a hit no farther than any other and strictly nearer than every earlier one |
| Intersector.FirstNearestUnique | main.go:153-164 | that earliest nearest hit is unique |
| Intersector.FirstNearestExtend | main.go:155-163 | one more candidate replaces the best so far iff it hits and is strictly nearer, or nothing hit before |
| Intersector.RayBox | main.go:139-167 | the loop returns the earliest nearest of the four face hits (`rayLine` on each face of `Faces`, in order), `0, 0, false` when none hits; this is `BoxHit` |
| Intersector.FaceHitOnSquare | main.go:140-154 | a hit on face k is that face's point and lies on the cell's square |
| Intersector.BoxHitFace | main.go:153-166 | a cell hit is the hit of one of its four faces |
| Intersector.BoxHitSound | main.go:139-167 | a cell hit lies on the boundary of the cell's square |
| Intersector.BoxHitNearest | main.go:139-167 | if the ray meets any non-parallel face of the cell at t > 0, the cell reports a hit no farther than t / norm |
| Intersector.RayLineExampleHit | main.go:123-137 | from (0.5, 0.5) in direction (0, 1), face 0 of cell (1, 0) is hit half a unit away, at mu 0.5 |
| Intersector.RayLineExampleMiss | main.go:123-137 | from (0.5, 0.5) in direction (0, -1), face 0 of cell (0, -1) has lambda -1.5 and is a miss |
| Intersector.CollinearExample | main.go:123-137 | for a face collinear with the ray the model reports a miss (the source reports a NaN hit) |
| Intersector.CollinearExampleLambda | main.go:124-125 | for that face both lambda determinants are 0, so the source's lambda is 0 / 0 |
| Intersector.CollinearExampleMu | main.go:129-130 | for that face both mu determinants are 0 too, so the source's mu is 0 / 0 |
| Intersector.BoxHitExampleMiss | main.go:139-167 | with that ray, no face of cell (0, -1) is hit, so `rayBox` reports no hit for the cell |
| Caster.ScanSkip | main.go:71-73 | skipping an empty cell keeps the scan's invariant |
| Caster.ScanVisit | main.go:75-80 | a tested cell replaces the kept one iff its hit is strictly nearer than `closestDistance`; either way the invariant holds one cell further |
| Caster.ScanNextRow | main.go:68-70 | the end of one row is the start of the next |
| Caster.ClosestHit | main.go:63-82 | `closestDistance` stays +Inf iff no cell is hit, and then mu is NaN (None) and the tile is `empty`; otherwise distance, mu and tile are those of the first nearest hit cell in row-major order, and that tile is not `empty` |
| Caster.FirstClosestUnique | main.go:68-82 | at most one cell is the first nearest one |
| Caster.FirstClosestIsNearest | main.go:68-82 | no non-parallel wall face of a non-empty cell is met nearer than the kept distance: wherever the ray meets one at t > 0, the kept distance is at most t / norm |
| Caster.FirstClosestOnSquare | main.go:68-82 | the kept cell is non-empty, and the kept hit lies on the boundary of its square |
| Caster.ColumnFor | main.go:84-98 | blank iff the distance is +Inf; a panic iff the kept tile has no texture; otherwise a slice of the tile's texture at the kept distance and mu |
| Caster.CastColumn | main.go:63-98 | a column is blank iff no cell is hit; a slice shows the texture of the first nearest cell at that cell's distance and mu; a panic needs that cell's tile to be no named kind, so a well-formed level never panics; the depth entry is +Inf exactly for a blank column |
| Caster.CastParsedColumn | main.go:169-194 | a column of a level read by `mapFromString` never panics |

## Left out

- SDL is left out: the window, the renderer, loading textures and the
  global `textures` map. A texture is represented by its name.
- Generating a ray per column is left out. That is the `sweep` loop, focal
  length, `math.Sqrt`, `math.Cos` and `math.Sin` in `render`. The model
  takes the ray as a parameter, and takes its norm as a parameter with
  `norm * norm == xd*xd + yd*yd`.
- Slice height, brightness and the torch factor (`math.Round`, `math.Pow`,
  `math.Min`) are left out.
- The `int32` and `uint8` conversions, the texture query and the source
  rectangle `closestMu * tw` are left out.
- The depth map is left out. `CastColumn` returns the value that would be
  written to it.
- Floating-point rounding is left out: all arithmetic is exact over the
  reals.
- Intersector.RayLine: a zero lambda denominator (ray parallel to the
  face) is an explicit miss. In Go the division gives an infinite or NaN
  lambda, and the comparisons that follow decide the result.
  - A face that is parallel but not collinear: Go misses too. Lambda is
    ±Inf, so either `lambda <= 0` holds (main.go:125) or mu is ±Inf and
    fails the range check (main.go:130).
  - A face that is collinear with the ray: here the model departs from
    the source. All three determinants are 0, so Go's `rayLine` returns
    `NaN, NaN, true`. Example: origin (2, 0), direction (1, 0), face 0 of
    cell (1, 0), where the model reports a miss (`CollinearExample`,
    `CollinearExampleLambda`, `CollinearExampleMu`).
- Intersector.RayBox: when that collinear face is the first one hit, Go
  keeps `closest = NaN`. Every later `dist < closest` is false
  (main.go:159), so `rayBox` returns NaN. The model reports the nearest
  real face hit instead; in the example, face 1 at distance 1.
- Caster.ClosestHit: for such a cell, `NaN < closestDistance` is false
  (main.go:76), so Go drops the whole cell. The model keeps its finite
  hit.
- Caster.ClosestHit: with no NaN in the model, `dist < closestDistance` is
  otherwise an ordinary comparison. The starting +Inf is the `Infinite` value; the
  starting NaN of `closestMu` is `None`.
- TileMap.MapFromString reads the text as bytes. Go's `range` over a string
  yields runes at byte offsets into a row of `len(line)` bytes. '1' and '2'
  are single bytes, and no byte of a multi-byte character equals them. So
  the per-byte model gives the same tiles as the code for every input.
- The input loop and movement in `main` are left out: SDL events, key
  state and position and angle updates.
- The `Entity` type and the `entities` parameter of `render` are left out.
  Nothing uses them.
- Intersector.RayLine: `dist` is lambda / norm. That is the Euclidean
  distance to the hit only for a unit direction. `render` always passes
  one, and `DistanceAlong` states the general relation.
