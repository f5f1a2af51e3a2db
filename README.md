# Hexagon grid and date-sharing URLs, modelled in Dafny

This project models two small pieces of the `juanigaray` repository.

**The hexagon sketch** (`hexagons/sketch.js`) draws a honeycomb of cells.
Each cell holds one of four element types: air, earth, fire or water.
Rows are staggered: every odd row is shifted 1.5 radii, half the column
spacing, to the right, so row `r + 2` sits directly under row `r`. The sketch answers three questions.

- Which cells touch a given cell (its "tangent" cells)?
- Where is a cell's center on the canvas?
- Is the mouse cursor inside a given cell's hexagon?

**The date-sharing page** (`date-sharing/index.js`) shares a date by
navigating to the current address with everything from its first `?` on
dropped and `?date=<encoded date>` appended. The cut is at the first `?`
wherever it is: `https://x/p?q#f` loses its fragment too, and from
`https://x/p#f` the shared address is `https://x/p#f?date=<encoded date>`,
where the date sits inside the fragment rather than the query.

Modules:

- `HexGrid` (`hex_grid.dfy`) covers the cell types and the map constructor. It also holds the parity test and the adjacency rule.
- `HexGeometry` (`hex_geometry.dfy`) covers the grid-to-pixel projection, the hexagon's corners and the hit test.
- `DateSharing` (`date_sharing.dfy`) covers the query stripping and the shared-date address.

Geometry is over Dafny's exact `real`.

- The hexagon radius `r` is a positive parameter. The sketch fixes it at 60.
- The half-height `h` is any positive real. In the sketch it is `r·√3/2`.
- The lemmas that need the regular-hexagon value assume only `4h² = 3r²`.

The map is a sequence of rows, like the sketch's array of arrays. A cell
is present when both of its indices are in bounds. The sketch tests
presence by the truthiness of the entry. The two agree because every entry
is a non-empty type name.

`isEven` is modelled with JavaScript's truncating remainder, so it is
defined for negative integers too. In the sketch it only ever sees rows of
present cells, which are non-negative. The negative case is used by the
symmetry proof of adjacency (`CandidatesSymmetric`), which reasons about
candidate rows before the presence filter.

`Math.random()` becomes a real in `[0, 1)` chosen arbitrarily by the map
constructor.

The adjacency result keeps the sketch's fixed candidate order. The model
proves the exact ordered list and the order-free facts too: bounds, no
duplicates, at most six.

The hit test is strict on all six sides. Points exactly on a side are
outside, as the sketch's `<` and `>` comparisons make them.

## Model

| member | source | states |
|---|---|---|
| HexGrid.JsRem | hexagons/sketch.js:11 | The remainder truncates toward zero: `a - r` is a multiple of `b`, and `r` lies in `[0, |b|)` for a non-negative dividend and in `(-|b|, 0]` for a negative one. |
| HexGrid.IsEvenParity | hexagons/sketch.js:11 | `isEven(n)` holds exactly when n is twice an integer, negative n included. Neighbouring integers have opposite parity, and n ± 2 has the same parity as n. |
| HexGrid.GetRandomFromArray | hexagons/sketch.js:27 | For any random value in `[0, 1)`, the pick is the element at index `floor(random · length)`, so it lies in the array. It is `undefined` (None) exactly when the array is empty. |
| HexGrid.GetRandomFromArrayReaches | hexagons/sketch.js:27 | Every element can be picked: the random value `i / length` picks the element at index `i`. |
| HexGrid.CreateHexagonMap | hexagons/sketch.js:47-57 | The map has `rows` rows of exactly `cols` cells each. A non-positive count gives no rows or no cells. No cell is `undefined`: every pick comes from the non-empty list of element types. The clause that every cell is one of air, earth, fire or water holds for any value of the element type; what it adds is that each pick was defined. |
| HexGrid.PresentInRectangle | hexagons/sketch.js:128-135 | On a rectangular map, a cell is present exactly when `0 <= row < rows` and `0 <= col < cols`. |
| HexGrid.Tangents | hexagons/sketch.js:73-187 | A coordinate is in the result exactly when it is one of the six candidates of the cell and is present in the map. |
| HexGrid.SomesOfProbes | hexagons/sketch.js:125-136 | Mapping candidates to coordinate-or-null and then dropping the nulls equals filtering the candidates by presence, order kept. |
| HexGrid.PresentOnlyProperties | hexagons/sketch.js:128-136 | Filtering by presence is no longer than its input. It keeps exactly the present members and introduces no duplicates. |
| HexGrid.PresentOnlyAll | hexagons/sketch.js:128-136 | When every candidate is present, the filter keeps the whole list. |
| HexGrid.PresentOnlyNone | hexagons/sketch.js:128-136 | When no candidate is present, the filter gives the empty list. |
| HexGrid.TangentsEvenRow | hexagons/sketch.js:125-136 | On an even row, the result is (r-2,c), (r+2,c), (r-1,c), (r-1,c-1), (r+1,c), (r+1,c-1), kept in that order, restricted to present cells. |
| HexGrid.TangentsOddRow | hexagons/sketch.js:175-185 | On an odd row, the result is (r-2,c), (r+2,c), (r-1,c), (r-1,c+1), (r+1,c), (r+1,c+1), kept in that order, restricted to present cells. |
| HexGrid.CandidatesDistinct | hexagons/sketch.js:128-135 | The six candidates are pairwise distinct, and none is the cell itself. |
| HexGrid.TangentsBounded | hexagons/sketch.js:128-136 | On a rows×cols map the result has at most six entries, no duplicates and never the cell itself. Every entry satisfies `0 <= row < rows` and `0 <= col < cols`. |
| HexGrid.CandidatesSymmetric | hexagons/sketch.js:125-186 | p is a candidate of c exactly when c is a candidate of p. |
| HexGrid.TangentsMutual | hexagons/sketch.js:67-68 | Tangency is mutual: if n is a tangent of a present cell c, then c is a tangent of n. |
| HexGrid.TangentsOfJ | hexagons/sketch.js:77-110 | On a 6×4 map, cell J = (2,1) has tangents (0,1), (4,1), (1,1), (1,0), (3,1), (3,0). |
| HexGrid.TangentsOfM | hexagons/sketch.js:161-171 | On a 6×4 map, cell M = (3,0) has tangents (1,0), (5,0), (2,0), (2,1), (4,0), (4,1). |
| HexGrid.TangentsOfLoneCell | hexagons/sketch.js:120-136 | The only cell of a 1×1 map has no tangents. |
| HexGeometry.CenterYIncreasesWithRow | hexagons/sketch.js:290-298 | A center's y strictly increases with the row, whatever the columns. |
| HexGeometry.CenterColumnSpacing | hexagons/sketch.js:282-310 | Consecutive columns of a row are exactly `3r` apart (one diameter plus one radius) at the same y. |
| HexGeometry.CenterXIncreasesWithCol | hexagons/sketch.js:290-313 | Within a row, a center's x strictly increases with the column. |
| HexGeometry.OddRowShift | hexagons/sketch.js:294-310 | An odd row's center is exactly `1.5r` right of the even row's center in the same column. |
| HexGeometry.CornersNonNegative | hexagons/sketch.js:290-298 | Cells at non-negative coordinates have all corners at non-negative x and y. The hexagon of cell (0,0) touches the left and top borders. |
| HexGeometry.VerticesFormConvexHexagon | hexagons/sketch.js:338-391 | The six corners, taken right, top right, top left, left, bottom left, bottom right, form a strictly convex polygon turning one way. With the sides equally far from the center, opposite corners are mirror images through the center. |
| HexGeometry.RegularWhenHalfHeightIsSqrt3Over2 | hexagons/sketch.js:226-254 | When `h = r·√3/2` (stated as `4h² = 3r²`), all six sides have length r. |
| HexGeometry.TopRightSlope | hexagons/sketch.js:445 | The top-right side's slope, computed from its two corners, is `-2h/r`. |
| HexGeometry.SideLinesThroughCorners | hexagons/sketch.js:445-459 | Reusing the top-right slope for the other three slanted sides, negated where the sketch negates it, gives each side's true slope. Each line `y = a·x + b` passes through both corners of its side. |
| HexGeometry.HitTestAsBounds | hexagons/sketch.js:403-475 | The hit test holds exactly when, with `(dx, dy)` the cursor's offset from the center, `|dy| < h` and `|r·dy ± 2h·dx| < 2hr`. |
| HexGeometry.HitTestIsStrictlyInside | hexagons/sketch.js:403-475 | The hit test holds exactly when the cursor is strictly left of every directed side of the hexagon drawn from `getHexVertices`. This is an independent cross-product definition of "inside". |
| HexGeometry.HitTestCenterInside | hexagons/sketch.js:403-475 | A hexagon's own center is inside it. |
| HexGeometry.HitTestBoundingBox | hexagons/sketch.js:411-415 | A point inside lies strictly within `r` of the center horizontally and `h` vertically. So points with `y >= cy + h` or `y <= cy - h` are outside, and so is `(cx + 2r, cy)`. |
| HexGeometry.HitTestMidpointOfRowNeighbours | hexagons/sketch.js:398-477 | The midpoint between two consecutive centers of a row is in neither hexagon. |
| HexGeometry.DistinctCellsApart | hexagons/sketch.js:290-313 | Two different cells have centers at least `2h` apart vertically or `3r` apart horizontally. Otherwise their centers are exactly `(±1.5r, ±h)` apart. |
| HexGeometry.HexagonsDoNotOverlap | hexagons/sketch.js:398-477 | No cursor position is reported as hovering two different cells. |
| HexGeometry.CandidateCentersAtTangentOffset | hexagons/sketch.js:125-185 | Each candidate tangent's center is offset from the cell's center by `(0, ±2h)` or `(±1.5r, ±h)`. |
| HexGeometry.TangentOffsetIsCandidate | hexagons/sketch.js:125-185 | Conversely, a cell whose center sits at one of those six offsets is a candidate tangent. |
| HexGeometry.SharesSideAt | hexagons/sketch.js:338-391 | Two hexagons built by `getHexVertices` meet along side i of the first exactly when the second's center is at that side's offset: `(1.5r, h)`, `(0, 2h)`, `(-1.5r, h)`, `(-1.5r, -h)`, `(0, -2h)` or `(1.5r, -h)`. |
| HexGeometry.CandidatesShareASide | hexagons/sketch.js:67-68 | p is a candidate tangent of c exactly when the two drawn hexagons have a whole side in common. This is the sketch's "visually touch" made precise. |
| DateSharing.FindIndex | date-sharing/index.js:15 | The index is -1 exactly when the character is absent. Otherwise it is the position of its first occurrence. |
| DateSharing.TrimParamsFromURL | date-sharing/index.js:14-18 | The result is a prefix of the address with no `?`. It is the whole address when there is no `?`, and otherwise is followed in the address by a `?`. |
| DateSharing.CutAtFirstQuestionMark | date-sharing/index.js:15-17 | When `url[i]` is the first `?`, the result is `url[..i]`. |
| DateSharing.TrimIdempotent | date-sharing/index.js:14-18 | Trimming twice is trimming once. |
| DateSharing.TrimIsLongestPlainPrefix | date-sharing/index.js:14-18 | No prefix without `?` is longer than the result. |
| DateSharing.DateUrl | date-sharing/index.js:25-26 | Trimming the shared address gives back the trimmed current address. The shared address is that trimmed address followed by `?date=` and the encoded date. |
| DateSharing.DateUrlReplacesDate | date-sharing/index.js:25-26 | Sharing a date from an address that already carries one replaces the old date. It does not stack a second query. |

## Left out

- Rendering is not modelled: `setup`, `polygon`, `hexagon`, `drawHexagonAtRowAndCol`, the p5 `draw` loop and `fill`/`background`/`createCanvas` (hexagons/sketch.js:196-224, 321-327, 487-503). They are canvas I/O, and `polygon` steps a floating-point angle through `cos` and `sin`.
- `colorByHexType` (hexagons/sketch.js:480-485) is display data only and is not modelled.
- Floating point is not modelled. Coordinates are exact reals, and the model says nothing about IEEE-754 rounding or about points a rounding error away from a side.
- The exact value `√3/2` is not modelled. `h` is any positive real; only `HexGeometry.RegularWhenHalfHeightIsSqrt3Over2` assumes `4h² = 3r²`.
- GetRandomFromArray: the distribution of `Math.random()` is not modelled, only that the value lies in `[0, 1)`.
- CreateHexagonMap: the random value is chosen arbitrarily in `[0, 1)` rather than read from a generator, so the method promises nothing about which element type each cell gets, only that each pick is defined. The counts are integers: JavaScript's loops would also accept fractional counts (2.5 rows gives 3), which the sketch never passes.
- Tangents: presence is an index bounds check rather than JavaScript truthiness of `map[row]?.[col]`. The two agree on every map the sketch builds, whose entries are non-empty strings. Non-integer coordinates are outside the model.
- The map is immutable once built. The sketch never updates it, and the model represents it as a value.
- Browser plumbing in the date-sharing page is not modelled: `goToSelectedDateUrl`, `parseUrlDate`, `setUrlDateParagraph`, the click listener, `window.location`, `Date`, `URLSearchParams` and `alert` (date-sharing/index.js:27-80).
- DateUrl: the encoded date is taken as an arbitrary string. JavaScript's number-to-string conversion of `date.valueOf()` is not modelled. The properties hold for any string.
- FindIndex: strings are sequences of Unicode scalar values (Dafny's `char`), not the UTF-16 code units that `split("")` produces. A character outside the Basic Multilingual Plane is one `char` here but two code units in JavaScript, so indices after it differ: on "😀?" `findIndex` gives 2 and the model gives 1. The trimmed text is the same either way, because `?` is never half of a surrogate pair, so both cut before the same `?`.
- `hexagons/p5js.d.ts` holds type declarations only and is not part of this model.
