/** The geometry of the hexagon sketch: where a cell's hexagon is drawn
    (grid to pixel projection), its six corners, and the test that decides
    whether the cursor is over it.

    The sketch uses a fixed radius and a half-height of radius * sqrt(3) / 2.
    Here both are fields of a Geometry value: any positive radius and any
    positive half-height. Canvas y grows downwards; the sketch calls the side
    at the larger y "top", and so does this model. */
module HexGeometry {
  import opened HexGrid

  datatype Point = Point(x: real, y: real)

  datatype Geometry = Geometry(radius: real, halfHeight: real) {
    predicate Valid() {
      radius > 0.0 && halfHeight > 0.0
    }

    /** The width of a hexagon, from its left corner to its right corner. */
    function Diameter(): real {
      2.0 * radius
    }

    /** The horizontal distance between neighbouring cells of one row: a
        diameter, plus a radius of room for the cell of the next row. */
    function OffsetByCol(): real {
      Diameter() + radius
    }
  }

  // ---------------------------------------------------------------------
  // Grid to pixel projection
  // ---------------------------------------------------------------------

  /** The center of the hexagon of cell (row, col). Rows are half a hexagon
      apart vertically; odd rows are shifted 1.5 radii to the right. */
  function HexCenter(g: Geometry, row: int, col: int): Point {
    var rowHeight := (row + 1) as real * g.halfHeight;
    if IsEven(row) then
      Point(col as real * g.OffsetByCol() + g.radius, rowHeight)
    else
      Point(col as real * g.OffsetByCol() + g.radius + g.radius * 1.5, rowHeight)
  }

  /** Bounds on k copies of a positive u, for an integer k. */
  lemma IntScale(k: int, u: real)
    requires u > 0.0
    ensures k >= 0 ==> (k as real) * u >= 0.0
    ensures k >= 1 ==> (k as real) * u >= u
    ensures k <= -1 ==> (k as real) * u <= -u
  {
    if k >= 1 {
      assert (k as real) * u - u == ((k - 1) as real) * u;
    } else if k <= -1 {
      assert (k as real) * u + u == ((k + 1) as real) * u;
    }
  }

  /** A cell's center lies lower on the canvas (greater y) the greater its
      row, whatever the columns. */
  lemma CenterYIncreasesWithRow(g: Geometry, row1: int, col1: int, row2: int, col2: int)
    requires g.Valid()
    requires row1 < row2
    ensures HexCenter(g, row1, col1).y < HexCenter(g, row2, col2).y
  {
    IntScale(row2 - row1, g.halfHeight);
    assert HexCenter(g, row2, col2).y - HexCenter(g, row1, col1).y
        == ((row2 - row1) as real) * g.halfHeight;
  }

  /** In one row, consecutive columns are exactly three radii apart and at
      the same height. */
  lemma CenterColumnSpacing(g: Geometry, row: int, col: int)
    ensures HexCenter(g, row, col + 1).x == HexCenter(g, row, col).x + 3.0 * g.radius
    ensures HexCenter(g, row, col + 1).y == HexCenter(g, row, col).y
  {
  }

  /** In one row, a center lies further right the greater its column. */
  lemma CenterXIncreasesWithCol(g: Geometry, row: int, col1: int, col2: int)
    requires g.Valid()
    requires col1 < col2
    ensures HexCenter(g, row, col1).x < HexCenter(g, row, col2).x
  {
    IntScale(col2 - col1, g.OffsetByCol());
    assert HexCenter(g, row, col2).x - HexCenter(g, row, col1).x
        == ((col2 - col1) as real) * g.OffsetByCol();
  }

  /** A cell of an odd row lies 1.5 radii to the right of the cell of the
      same column in an even row. */
  lemma OddRowShift(g: Geometry, evenRow: int, oddRow: int, col: int)
    requires IsEven(evenRow) && !IsEven(oddRow)
    ensures HexCenter(g, oddRow, col).x == HexCenter(g, evenRow, col).x + 1.5 * g.radius
  {
  }

  // ---------------------------------------------------------------------
  // The corners of a hexagon
  // ---------------------------------------------------------------------

  datatype HexVertices = HexVertices(
    topRight: Point, topLeft: Point,
    bottomRight: Point, bottomLeft: Point,
    left: Point, right: Point)

  /** The six corners of the hexagon at `hexCenter` whose top and bottom
      sides lie at `topSideY` and `bottomSideY`: the left and right corners
      a radius away at the height of the center, the others half a radius
      to each side on the top and bottom sides. */
  function GetHexVertices(g: Geometry, hexCenter: Point, bottomSideY: real, topSideY: real): HexVertices {
    var centerRightVertexX := hexCenter.x + 0.5 * g.radius;
    var centerLeftVertexX := hexCenter.x - 0.5 * g.radius;
    HexVertices(
      Point(centerRightVertexX, topSideY), Point(centerLeftVertexX, topSideY),
      Point(centerRightVertexX, bottomSideY), Point(centerLeftVertexX, bottomSideY),
      Point(hexCenter.x - g.radius, hexCenter.y), Point(hexCenter.x + g.radius, hexCenter.y))
  }

  /** The corners in turn around the hexagon, counterclockwise when y is
      read as pointing up: right, top right, top left, left, bottom left,
      bottom right. */
  function Ring(v: HexVertices): seq<Point> {
    [v.right, v.topRight, v.topLeft, v.left, v.bottomLeft, v.bottomRight]
  }

  /** The hexagon of the sketch at `center`: its top and bottom sides a
      half-height away from the center. */
  function HexagonRing(g: Geometry, center: Point): seq<Point> {
    Ring(GetHexVertices(g, center, center.y - g.halfHeight, center.y + g.halfHeight))
  }

  /** Twice the signed area of the triangle o, a, b: positive when b lies to
      the left of the line from o to a. */
  function Cross(o: Point, a: Point, b: Point): real {
    (a.x - o.x) * (b.y - o.y) - (a.y - o.y) * (b.x - o.x)
  }

  /** The turn at corner i + 1 of a ring, as seen from corner i: positive
      when the ring turns left there. */
  ghost function Turn(ring: seq<Point>, i: int): real
    requires 0 <= i < |ring|
  {
    Cross(ring[i], ring[(i + 1) % |ring|], ring[(i + 2) % |ring|])
  }

  /** Where `p` lies relative to edge i of a ring (from corner i to the next
      one): positive when it lies on the left, that is the inner, side. */
  ghost function SideOf(ring: seq<Point>, i: int, p: Point): real
    requires 0 <= i < |ring|
  {
    Cross(ring[i], ring[(i + 1) % |ring|], p)
  }

  /** Each corner of a ring turns left: the ring bounds a convex polygon,
      traversed counterclockwise. */
  ghost predicate ConvexCounterclockwise(ring: seq<Point>) {
    |ring| >= 3 && forall i :: 0 <= i < |ring| ==> Turn(ring, i) > 0.0
  }

  /** `p` lies strictly on the inner side of every edge of the ring. */
  ghost predicate StrictlyInside(ring: seq<Point>, p: Point) {
    forall i :: 0 <= i < |ring| ==> SideOf(ring, i, p) > 0.0
  }

  /** The squared length of edge i of a ring. */
  ghost function EdgeLengthSquared(ring: seq<Point>, i: int): real
    requires 0 <= i < |ring|
  {
    var a, b := ring[i], ring[(i + 1) % |ring|];
    (b.x - a.x) * (b.x - a.x) + (b.y - a.y) * (b.y - a.y)
  }

  /** Whenever the top side lies above the center and the bottom side below
      it, the six corners form a convex hexagon; when both sides are equally
      far from the center, opposite corners mirror each other through it. */
  lemma VerticesFormConvexHexagon(g: Geometry, c: Point, bottomSideY: real, topSideY: real)
    requires g.radius > 0.0
    requires bottomSideY < c.y < topSideY
    ensures ConvexCounterclockwise(Ring(GetHexVertices(g, c, bottomSideY, topSideY)))
    ensures topSideY - c.y == c.y - bottomSideY ==>
      var v := GetHexVertices(g, c, bottomSideY, topSideY);
      && v.right.x + v.left.x == 2.0 * c.x && v.right.y + v.left.y == 2.0 * c.y
      && v.topRight.x + v.bottomLeft.x == 2.0 * c.x && v.topRight.y + v.bottomLeft.y == 2.0 * c.y
      && v.topLeft.x + v.bottomRight.x == 2.0 * c.x && v.topLeft.y + v.bottomRight.y == 2.0 * c.y
  {
    var ring := Ring(GetHexVertices(g, c, bottomSideY, topSideY));
    var r, top, bot := g.radius, topSideY - c.y, c.y - bottomSideY;
    assert Turn(ring, 0) == r * top;
    assert Turn(ring, 1) == r * top;
    assert Turn(ring, 2) == 0.5 * r * (top + bot);
    assert Turn(ring, 3) == r * bot;
    assert Turn(ring, 4) == r * bot;
    assert Turn(ring, 5) == 0.5 * r * (top + bot);
  }

  /** With a half-height of radius * sqrt(3) / 2, that is 4 h^2 = 3 r^2,
      every side of the hexagon is one radius long: the hexagon is
      regular. */
  lemma RegularWhenHalfHeightIsSqrt3Over2(g: Geometry, c: Point)
    requires g.Valid()
    requires 4.0 * g.halfHeight * g.halfHeight == 3.0 * g.radius * g.radius
    ensures forall i :: 0 <= i < 6 ==> EdgeLengthSquared(HexagonRing(g, c), i) == g.radius * g.radius
  {
    var ring := HexagonRing(g, c);
    var r, h := g.radius, g.halfHeight;
    assert EdgeLengthSquared(ring, 0) == 0.25 * r * r + h * h;
    assert EdgeLengthSquared(ring, 1) == r * r;
    assert EdgeLengthSquared(ring, 2) == 0.25 * r * r + h * h;
    assert EdgeLengthSquared(ring, 3) == 0.25 * r * r + h * h;
    assert EdgeLengthSquared(ring, 4) == r * r;
    assert EdgeLengthSquared(ring, 5) == 0.25 * r * r + h * h;
  }

  // ---------------------------------------------------------------------
  // The hit test
  // ---------------------------------------------------------------------

  /** Whether the cursor is over the hexagon at `hexCenter`: strictly
      between its top and bottom sides, and strictly on the inner side of
      the lines through its four slanted sides, each line written as
      y = slope * x + b. The slope of the top-right side is computed; the
      other three are taken from it by symmetry. */
  function IsCursorInHex(g: Geometry, cursor: Point, hexCenter: Point): bool
    requires g.Valid()
  {
    var topSideY := hexCenter.y + g.halfHeight;
    var bottomSideY := hexCenter.y - g.halfHeight;
    var isUnderTopSide := cursor.y < topSideY;
    var isOverBottomSide := cursor.y > bottomSideY;
    var v := GetHexVertices(g, hexCenter, bottomSideY, topSideY);
    var topRightSideSlope := (v.topRight.y - v.right.y) / (v.topRight.x - v.right.x);
    var bottomLeftSideSlope := topRightSideSlope;
    var topLeftSideSlope := -topRightSideSlope;
    var bottomRightSideSlope := -topRightSideSlope;
    var topRightSideB := v.right.y - topRightSideSlope * v.right.x;
    var topLeftSideB := v.left.y - topLeftSideSlope * v.left.x;
    var bottomLeftSideB := v.bottomLeft.y - bottomLeftSideSlope * v.bottomLeft.x;
    var bottomRightSideB := v.right.y - bottomRightSideSlope * v.right.x;
    var isSouthWestOfTopRightSide := cursor.y < topRightSideSlope * cursor.x + topRightSideB;
    var isSouthEastOfTopLeftSide := cursor.y < topLeftSideSlope * cursor.x + topLeftSideB;
    var isNorthWestOfBottomRightSide := cursor.y > bottomRightSideSlope * cursor.x + bottomRightSideB;
    var isNorthEastOfBottomLeftSide := cursor.y > bottomLeftSideSlope * cursor.x + bottomLeftSideB;
    isUnderTopSide && isOverBottomSide &&
    isSouthWestOfTopRightSide && isSouthEastOfTopLeftSide &&
    isNorthWestOfBottomRightSide && isNorthEastOfBottomLeftSide
  }

  /** Whether the cursor is over the hexagon of cell (row, col). */
  function IsUserHoveringHexAtCoord(g: Geometry, cursor: Point, row: int, col: int): bool
    requires g.Valid()
  {
    IsCursorInHex(g, cursor, HexCenter(g, row, col))
  }

  /** Multiplying both sides of a strict inequality by a negative number
      reverses it. */
  lemma ScaleByNegative(d: real, a: real, b: real)
    requires d < 0.0
    ensures a < b <==> d * a > d * b
  {
    assert d * a - d * b == d * (a - b);
  }

  /** A line of slope s, where s * d == h for a negative d, has the point
      (X, Y) (relative to a point of the line) below it exactly when
      d * Y - h * X is positive, and above it when h * X - d * Y is. */
  lemma SlantedSideTest(s: real, d: real, h: real, X: real, Y: real)
    requires d < 0.0 && s * d == h
    ensures Y < s * X <==> d * Y - h * X > 0.0
    ensures s * X < Y <==> h * X - d * Y > 0.0
  {
    ScaleByNegative(d, Y, s * X);
    ScaleByNegative(d, s * X, Y);
    calc {
      d * (s * X);
      (s * d) * X;
      h * X;
    }
  }

  /** The slope of the top-right side, as the sketch computes it, times
      minus half a radius is the half-height. */
  lemma TopRightSlope(g: Geometry, c: Point)
    requires g.Valid()
    ensures var v := GetHexVertices(g, c, c.y - g.halfHeight, c.y + g.halfHeight);
      ((v.topRight.y - v.right.y) / (v.topRight.x - v.right.x)) * (-0.5 * g.radius) == g.halfHeight
  {
    var v := GetHexVertices(g, c, c.y - g.halfHeight, c.y + g.halfHeight);
    assert v.topRight.y - v.right.y == g.halfHeight;
    assert v.topRight.x - v.right.x == -0.5 * g.radius;
  }

  /** The slopes the sketch takes by symmetry are the slopes of the sides
      they stand for, and each of the four lines passes through both
      corners of its side. */
  lemma SideLinesThroughCorners(g: Geometry, c: Point)
    requires g.Valid()
    ensures var v := GetHexVertices(g, c, c.y - g.halfHeight, c.y + g.halfHeight);
      var s := (v.topRight.y - v.right.y) / (v.topRight.x - v.right.x);
      && s == (v.bottomLeft.y - v.left.y) / (v.bottomLeft.x - v.left.x)
      && -s == (v.topLeft.y - v.left.y) / (v.topLeft.x - v.left.x)
      && -s == (v.bottomRight.y - v.right.y) / (v.bottomRight.x - v.right.x)
      && v.topRight.y == s * v.topRight.x + (v.right.y - s * v.right.x)
      && v.topLeft.y == -s * v.topLeft.x + (v.left.y - -s * v.left.x)
      && v.left.y == s * v.left.x + (v.bottomLeft.y - s * v.bottomLeft.x)
      && v.bottomRight.y == -s * v.bottomRight.x + (v.right.y - -s * v.right.x)
  {
    var r, h := g.radius, g.halfHeight;
    var v := GetHexVertices(g, c, c.y - h, c.y + h);
    var s := (v.topRight.y - v.right.y) / (v.topRight.x - v.right.x);
    TopRightSlope(g, c);
    assert v.bottomLeft.y - v.left.y == -h && v.bottomLeft.x - v.left.x == 0.5 * r;
    assert v.topLeft.y - v.left.y == h && v.topLeft.x - v.left.x == 0.5 * r;
    assert v.bottomRight.y - v.right.y == -h && v.bottomRight.x - v.right.x == -0.5 * r;
  }

  /** The hexagon at `c` as six strict inequalities on the offset (dx, dy)
      of `p` from the center: within a half-height vertically, and within
      the two pairs of parallel slanted sides. */
  ghost predicate InHexagonBounds(g: Geometry, c: Point, p: Point) {
    OffsetInHexagon(g.radius, g.halfHeight, p.x - c.x, p.y - c.y)
  }

  ghost predicate OffsetInHexagon(r: real, h: real, dx: real, dy: real) {
    && -h < dy < h
    && -2.0 * h * r < r * dy + 2.0 * h * dx < 2.0 * h * r
    && -2.0 * h * r < r * dy - 2.0 * h * dx < 2.0 * h * r
  }

  /** For the line of slope s through (lx, ly), where s * d == h for a
      negative d: the point (px, py) lies below it (smaller y) exactly when
      d * (py - ly) - h * (px - lx) is positive, above it exactly when
      h * (px - lx) - d * (py - ly) is. */
  lemma LineSides(s: real, d: real, h: real, lx: real, ly: real, px: real, py: real)
    requires d < 0.0 && s * d == h
    ensures (py < s * px + (ly - s * lx)) <==> d * (py - ly) - h * (px - lx) > 0.0
    ensures (py > s * px + (ly - s * lx)) <==> h * (px - lx) - d * (py - ly) > 0.0
  {
    assert (py < s * px + (ly - s * lx)) == (py - ly < s * (px - lx));
    assert (py > s * px + (ly - s * lx)) == (s * (px - lx) < py - ly);
    SlantedSideTest(s, d, h, px - lx, py - ly);
  }

  /** A product with a positive factor has the sign of the other factor. */
  lemma PositiveFactor(r: real, a: real)
    requires r > 0.0
    ensures r * a > 0.0 <==> a > 0.0
  {
    if a <= 0.0 {
      assert r * a == -(r * -a);
    }
  }

  /** The four slanted side tests of the sketch, each a comparison with a
      line through a corner of the hexagon of radius r and half-height h at
      (cx, cy), in terms of the offset (dx, dy) of the point from the
      center. */
  lemma SlantedSidesAsBounds(r: real, h: real, cx: real, cy: real, px: real, py: real)
    requires r > 0.0
    ensures var d, dx, dy := -0.5 * r, px - cx, py - cy;
      && (d * (py - cy) - h * (px - (cx + r)) > 0.0 <==> r * dy + 2.0 * h * dx < 2.0 * h * r)
      && (d * (py - cy) - -h * (px - (cx - r)) > 0.0 <==> r * dy - 2.0 * h * dx < 2.0 * h * r)
      && (-h * (px - (cx + r)) - d * (py - cy) > 0.0 <==> -2.0 * h * r < r * dy - 2.0 * h * dx)
      && (h * (px - (cx - 0.5 * r)) - d * (py - (cy - h)) > 0.0 <==> -2.0 * h * r < r * dy + 2.0 * h * dx)
  {
  }

  /** The top-right side test of the sketch as the sign of a product form. */
  lemma TopRightSideTest(g: Geometry, cursor: Point, c: Point)
    requires g.Valid()
    ensures var v := GetHexVertices(g, c, c.y - g.halfHeight, c.y + g.halfHeight);
      var s := (v.topRight.y - v.right.y) / (v.topRight.x - v.right.x);
      (cursor.y < s * cursor.x + (v.right.y - s * v.right.x))
        == (-0.5 * g.radius * (cursor.y - c.y) - g.halfHeight * (cursor.x - (c.x + g.radius)) > 0.0)
  {
    var v := GetHexVertices(g, c, c.y - g.halfHeight, c.y + g.halfHeight);
    var s := (v.topRight.y - v.right.y) / (v.topRight.x - v.right.x);
    TopRightSlope(g, c);
    LineSides(s, -0.5 * g.radius, g.halfHeight, v.right.x, v.right.y, cursor.x, cursor.y);
  }

  /** The top-left side test of the sketch as the sign of a product form. */
  lemma TopLeftSideTest(g: Geometry, cursor: Point, c: Point)
    requires g.Valid()
    ensures var v := GetHexVertices(g, c, c.y - g.halfHeight, c.y + g.halfHeight);
      var s := (v.topRight.y - v.right.y) / (v.topRight.x - v.right.x);
      (cursor.y < -s * cursor.x + (v.left.y - -s * v.left.x))
        == (-0.5 * g.radius * (cursor.y - c.y) - -g.halfHeight * (cursor.x - (c.x - g.radius)) > 0.0)
  {
    var v := GetHexVertices(g, c, c.y - g.halfHeight, c.y + g.halfHeight);
    var s := (v.topRight.y - v.right.y) / (v.topRight.x - v.right.x);
    TopRightSlope(g, c);
    LineSides(-s, -0.5 * g.radius, -g.halfHeight, v.left.x, v.left.y, cursor.x, cursor.y);
  }

  /** The bottom-right side test of the sketch as the sign of a product
      form. */
  lemma BottomRightSideTest(g: Geometry, cursor: Point, c: Point)
    requires g.Valid()
    ensures var v := GetHexVertices(g, c, c.y - g.halfHeight, c.y + g.halfHeight);
      var s := (v.topRight.y - v.right.y) / (v.topRight.x - v.right.x);
      (cursor.y > -s * cursor.x + (v.right.y - -s * v.right.x))
        == (-g.halfHeight * (cursor.x - (c.x + g.radius)) - -0.5 * g.radius * (cursor.y - c.y) > 0.0)
  {
    var v := GetHexVertices(g, c, c.y - g.halfHeight, c.y + g.halfHeight);
    var s := (v.topRight.y - v.right.y) / (v.topRight.x - v.right.x);
    TopRightSlope(g, c);
    LineSides(-s, -0.5 * g.radius, -g.halfHeight, v.right.x, v.right.y, cursor.x, cursor.y);
  }

  /** The bottom-left side test of the sketch as the sign of a product
      form. */
  lemma BottomLeftSideTest(g: Geometry, cursor: Point, c: Point)
    requires g.Valid()
    ensures var v := GetHexVertices(g, c, c.y - g.halfHeight, c.y + g.halfHeight);
      var s := (v.topRight.y - v.right.y) / (v.topRight.x - v.right.x);
      (cursor.y > s * cursor.x + (v.bottomLeft.y - s * v.bottomLeft.x))
        == (g.halfHeight * (cursor.x - (c.x - 0.5 * g.radius)) - -0.5 * g.radius * (cursor.y - (c.y - g.halfHeight)) > 0.0)
  {
    var v := GetHexVertices(g, c, c.y - g.halfHeight, c.y + g.halfHeight);
    var s := (v.topRight.y - v.right.y) / (v.topRight.x - v.right.x);
    TopRightSlope(g, c);
    LineSides(s, -0.5 * g.radius, g.halfHeight, v.bottomLeft.x, v.bottomLeft.y, cursor.x, cursor.y);
  }

  /** The sketch's six tests, each slanted one rewritten as the sign of a
      product form. */
  lemma HitTestUnfolded(g: Geometry, cursor: Point, c: Point)
    requires g.Valid()
    ensures var r, h, d, px, py, cx, cy := g.radius, g.halfHeight, -0.5 * g.radius, cursor.x, cursor.y, c.x, c.y;
      IsCursorInHex(g, cursor, c) <==>
        && py < cy + h && py > cy - h
        && d * (py - cy) - h * (px - (cx + r)) > 0.0
        && d * (py - cy) - -h * (px - (cx - r)) > 0.0
        && -h * (px - (cx + r)) - d * (py - cy) > 0.0
        && h * (px - (cx - 0.5 * r)) - d * (py - (cy - h)) > 0.0
  {
    TopRightSideTest(g, cursor, c);
    TopLeftSideTest(g, cursor, c);
    BottomRightSideTest(g, cursor, c);
    BottomLeftSideTest(g, cursor, c);
  }

  /** The sketch's six tests, solved for the offset of the cursor from the
      center. */
  lemma HitTestAsBounds(g: Geometry, cursor: Point, c: Point)
    requires g.Valid()
    ensures IsCursorInHex(g, cursor, c) <==> InHexagonBounds(g, c, cursor)
  {
    HitTestUnfolded(g, cursor, c);
    SlantedSidesAsBounds(g.radius, g.halfHeight, c.x, c.y, cursor.x, cursor.y);
  }

  /** The value of SideOf for each edge of the hexagon. */
  lemma HexagonSides(g: Geometry, p: Point, c: Point)
    ensures var r, h, dx, dy, ring := g.radius, g.halfHeight, p.x - c.x, p.y - c.y, HexagonRing(g, c);
      && SideOf(ring, 0, p) == 0.5 * (2.0 * h * r - (r * dy + 2.0 * h * dx))
      && SideOf(ring, 1, p) == r * (h - dy)
      && SideOf(ring, 2, p) == 0.5 * (2.0 * h * r - (r * dy - 2.0 * h * dx))
      && SideOf(ring, 3, p) == 0.5 * (2.0 * h * r + (r * dy + 2.0 * h * dx))
      && SideOf(ring, 4, p) == r * (dy + h)
      && SideOf(ring, 5, p) == 0.5 * (2.0 * h * r + (r * dy - 2.0 * h * dx))
  {
  }

  /** Six edge values, given as functions of the offset, are all positive
      exactly when the offset satisfies the six inequalities. */
  lemma EdgeValuesAsBounds(r: real, h: real, dx: real, dy: real,
                           s0: real, s1: real, s2: real, s3: real, s4: real, s5: real)
    requires r > 0.0 && h > 0.0
    requires s0 == 0.5 * (2.0 * h * r - (r * dy + 2.0 * h * dx))
    requires s1 == r * (h - dy)
    requires s2 == 0.5 * (2.0 * h * r - (r * dy - 2.0 * h * dx))
    requires s3 == 0.5 * (2.0 * h * r + (r * dy + 2.0 * h * dx))
    requires s4 == r * (dy + h)
    requires s5 == 0.5 * (2.0 * h * r + (r * dy - 2.0 * h * dx))
    ensures s0 > 0.0 && s1 > 0.0 && s2 > 0.0 && s3 > 0.0 && s4 > 0.0 && s5 > 0.0
      <==> OffsetInHexagon(r, h, dx, dy)
  {
    PositiveFactor(r, h - dy);
    PositiveFactor(r, dy + h);
  }

  /** Lying strictly inside the six edges of the hexagon is the same six
      inequalities. */
  lemma StrictlyInsideAsBounds(g: Geometry, p: Point, c: Point)
    requires g.Valid()
    ensures StrictlyInside(HexagonRing(g, c), p) <==> InHexagonBounds(g, c, p)
  {
    var ring := HexagonRing(g, c);
    HexagonSides(g, p, c);
    EdgeValuesAsBounds(g.radius, g.halfHeight, p.x - c.x, p.y - c.y,
      SideOf(ring, 0, p), SideOf(ring, 1, p), SideOf(ring, 2, p),
      SideOf(ring, 3, p), SideOf(ring, 4, p), SideOf(ring, 5, p));
    if InHexagonBounds(g, c, p) {
      forall i | 0 <= i < |ring| ensures SideOf(ring, i, p) > 0.0 {
        if i == 0 {} else if i == 1 {} else if i == 2 {}
        else if i == 3 {} else if i == 4 {} else {}
      }
    }
  }

  /** The sketch's six tests say exactly that the cursor lies strictly
      inside the hexagon: strictly on the inner side of all six edges. */
  lemma HitTestIsStrictlyInside(g: Geometry, cursor: Point, c: Point)
    requires g.Valid()
    ensures IsCursorInHex(g, cursor, c) <==> StrictlyInside(HexagonRing(g, c), cursor)
  {
    HitTestAsBounds(g, cursor, c);
    StrictlyInsideAsBounds(g, cursor, c);
  }

  // ---------------------------------------------------------------------
  // What the hit test implies
  // ---------------------------------------------------------------------

  /** An offset inside the hexagon is less than a radius horizontally and
      less than a half-height vertically. */
  lemma OffsetBox(r: real, h: real, dx: real, dy: real)
    requires r > 0.0 && h > 0.0
    requires OffsetInHexagon(r, h, dx, dy)
    ensures -r < dx < r && -h < dy < h
  {
    PositiveFactor(h, r - dx);
    PositiveFactor(h, r + dx);
  }

  /** The center of a hexagon is over it. */
  lemma HitTestCenterInside(g: Geometry, c: Point)
    requires g.Valid()
    ensures IsCursorInHex(g, c, c)
  {
    HitTestAsBounds(g, c, c);
    var r, h := g.radius, g.halfHeight;
    assert r * h > 0.0 by { PositiveFactor(r, h); }
  }

  /** A cursor over a hexagon is less than a radius from its center
      horizontally and less than a half-height vertically: in particular,
      points at or beyond the top or bottom side, or two radii to the right
      of the center, are not over it. */
  lemma HitTestBoundingBox(g: Geometry, cursor: Point, c: Point)
    requires g.Valid()
    ensures IsCursorInHex(g, cursor, c) ==>
      c.x - g.radius < cursor.x < c.x + g.radius && c.y - g.halfHeight < cursor.y < c.y + g.halfHeight
    ensures !IsCursorInHex(g, Point(c.x + 2.0 * g.radius, c.y), c)
  {
    HitTestAsBounds(g, cursor, c);
    if IsCursorInHex(g, cursor, c) {
      OffsetBox(g.radius, g.halfHeight, cursor.x - c.x, cursor.y - c.y);
    }
    var far := Point(c.x + 2.0 * g.radius, c.y);
    HitTestAsBounds(g, far, c);
    if IsCursorInHex(g, far, c) {
      OffsetBox(g.radius, g.halfHeight, far.x - c.x, far.y - c.y);
    }
  }

  /** The point halfway between the centers of two neighbouring cells of a
      row is over neither of them. */
  lemma HitTestMidpointOfRowNeighbours(g: Geometry, row: int, col: int)
    requires g.Valid()
    ensures var a, b := HexCenter(g, row, col), HexCenter(g, row, col + 1);
      var mid := Point((a.x + b.x) / 2.0, (a.y + b.y) / 2.0);
      !IsUserHoveringHexAtCoord(g, mid, row, col) && !IsUserHoveringHexAtCoord(g, mid, row, col + 1)
  {
    var a, b := HexCenter(g, row, col), HexCenter(g, row, col + 1);
    var mid := Point((a.x + b.x) / 2.0, (a.y + b.y) / 2.0);
    CenterColumnSpacing(g, row, col);
    HitTestBoundingBox(g, mid, a);
    HitTestBoundingBox(g, mid, b);
  }

  /** Two offsets of one point from two centers cannot both lie inside a
      hexagon when the centers are two half-heights or more apart
      vertically, three radii or more apart horizontally, or across one of
      the four slanted sides. */
  lemma OffsetsExclusive(r: real, h: real, dx: real, dy: real, ox: real, oy: real)
    requires r > 0.0 && h > 0.0
    requires OffsetInHexagon(r, h, dx, dy)
    requires || oy >= 2.0 * h || oy <= -2.0 * h || ox >= 3.0 * r || ox <= -3.0 * r
             || ((oy == h || oy == -h) && (ox == 1.5 * r || ox == -1.5 * r))
    ensures !OffsetInHexagon(r, h, dx - ox, dy - oy)
  {
    OffsetBox(r, h, dx, dy);
    if OffsetInHexagon(r, h, dx - ox, dy - oy) {
      OffsetBox(r, h, dx - ox, dy - oy);
    }
  }

  /** The offset between the centers of two cells. */
  function CenterOffset(g: Geometry, a: GridCoords, b: GridCoords): Point {
    var pa, pb := HexCenter(g, a.row, a.col), HexCenter(g, b.row, b.col);
    Point(pb.x - pa.x, pb.y - pa.y)
  }

  /** The horizontal offset between two centers: whole column spacings, plus
      or minus the odd-row shift when the rows differ in parity. */
  lemma CenterOffsetX(g: Geometry, a: GridCoords, b: GridCoords)
    ensures var ox, k := CenterOffset(g, a, b).x, b.col - a.col;
      && (IsEven(a.row) == IsEven(b.row) ==> ox == (k as real) * (3.0 * g.radius))
      && (IsEven(a.row) && !IsEven(b.row) ==> ox == (k as real) * (3.0 * g.radius) + 1.5 * g.radius)
      && (!IsEven(a.row) && IsEven(b.row) ==> ox == (k as real) * (3.0 * g.radius) - 1.5 * g.radius)
  {
    var O := g.OffsetByCol();
    assert (b.col as real) * O - (a.col as real) * O == ((b.col - a.col) as real) * O;
  }

  /** The vertical offset between two centers: whole half-heights. */
  lemma CenterOffsetY(g: Geometry, a: GridCoords, b: GridCoords)
    ensures CenterOffset(g, a, b).y == ((b.row - a.row) as real) * g.halfHeight
  {
  }

  /** A non-zero number of whole column spacings is at least one spacing. */
  lemma WholeColumns(j: int, r: real, x: real)
    requires r > 0.0
    requires j != 0
    requires x == (j as real) * (3.0 * r)
    ensures x >= 3.0 * r || x <= -3.0 * r
  {
    IntScale(j, 3.0 * r);
  }

  /** Whole column spacings shifted by half a spacing never land strictly
      between 1.5 and 3 radii from zero. */
  lemma ShiftedColumns(j: int, r: real, shift: real, x: real)
    requires r > 0.0
    requires shift == 1.5 * r || shift == -1.5 * r
    requires x == (j as real) * (3.0 * r) + shift
    ensures x >= 3.0 * r || x <= -3.0 * r || x == 1.5 * r || x == -1.5 * r
  {
    var u := 3.0 * r;
    var y := (j as real) * u;
    IntScale(j, u);
    if j >= 2 {
      IntScale(j - 2, u);
      assert y == ((j - 2) as real) * u + 2.0 * u;
    } else if j <= -2 {
      IntScale(j + 2, u);
      assert y == ((j + 2) as real) * u - 2.0 * u;
    } else if j == 0 {
      assert y == 0.0;
    } else if j == 1 {
      assert y == u;
    } else {
      assert y == -u;
    }
  }

  /** Whole rows of half-heights: an offset of k half-heights is 0, one
      half-height either way, or two or more. */
  lemma WholeRows(k: int, h: real, y: real)
    requires h > 0.0
    requires y == (k as real) * h
    ensures k == 0 ==> y == 0.0
    ensures k == 1 ==> y == h
    ensures k == -1 ==> y == -h
    ensures k >= 2 ==> y >= 2.0 * h
    ensures k <= -2 ==> y <= -2.0 * h
  {
    if k >= 2 {
      IntScale(k - 2, h);
      assert y == ((k - 2) as real) * h + 2.0 * h;
    } else if k <= -2 {
      IntScale(k + 2, h);
      assert y == ((k + 2) as real) * h - 2.0 * h;
    }
  }

  /** The parity facts the projection needs about two rows `k` apart. */
  lemma RowParity(a: int, b: int)
    ensures b - a == 0 || b - a == 2 || b - a == -2 ==> IsEven(a) == IsEven(b)
    ensures b - a == 1 || b - a == -1 ==> IsEven(a) != IsEven(b)
  {
    IsEvenParity(a);
  }

  /** The centers of two different cells are two half-heights or more apart
      vertically, or three radii or more apart horizontally, or one
      half-height and 1.5 radii apart. */
  lemma DistinctCellsApart(g: Geometry, a: GridCoords, b: GridCoords)
    requires g.Valid()
    requires a != b
    ensures var o, r, h := CenterOffset(g, a, b), g.radius, g.halfHeight;
      || o.y >= 2.0 * h || o.y <= -2.0 * h || o.x >= 3.0 * r || o.x <= -3.0 * r
      || ((o.y == h || o.y == -h) && (o.x == 1.5 * r || o.x == -1.5 * r))
  {
    var o, r := CenterOffset(g, a, b), g.radius;
    var k, j := b.row - a.row, b.col - a.col;
    CenterOffsetX(g, a, b);
    CenterOffsetY(g, a, b);
    RowParity(a.row, b.row);
    WholeRows(k, g.halfHeight, o.y);
    if k == 0 {
      WholeColumns(j, r, o.x);
    } else if k == 1 || k == -1 {
      if IsEven(a.row) {
        ShiftedColumns(j, r, 1.5 * r, o.x);
      } else {
        ShiftedColumns(j, r, -1.5 * r, o.x);
      }
    }
  }

  /** No cursor position is over two different cells: the hexagons of the
      grid do not overlap. */
  lemma HexagonsDoNotOverlap(g: Geometry, cursor: Point, a: GridCoords, b: GridCoords)
    requires g.Valid()
    requires a != b
    ensures !(IsUserHoveringHexAtCoord(g, cursor, a.row, a.col) && IsUserHoveringHexAtCoord(g, cursor, b.row, b.col))
  {
    var ca, cb := HexCenter(g, a.row, a.col), HexCenter(g, b.row, b.col);
    var o := CenterOffset(g, a, b);
    HitTestAsBounds(g, cursor, ca);
    HitTestAsBounds(g, cursor, cb);
    DistinctCellsApart(g, a, b);
    if IsCursorInHex(g, cursor, ca) {
      OffsetsExclusive(g.radius, g.halfHeight, cursor.x - ca.x, cursor.y - ca.y, o.x, o.y);
      assert cursor.x - cb.x == (cursor.x - ca.x) - o.x;
      assert cursor.y - cb.y == (cursor.y - ca.y) - o.y;
    }
  }

  /** The offsets of the six tangent positions: two half-heights straight
      up or down, or one half-height and 1.5 radii diagonally. */
  ghost predicate TangentOffset(g: Geometry, o: Point) {
    || (o.x == 0.0 && (o.y == 2.0 * g.halfHeight || o.y == -2.0 * g.halfHeight))
    || ((o.x == 1.5 * g.radius || o.x == -1.5 * g.radius)
        && (o.y == g.halfHeight || o.y == -g.halfHeight))
  }

  /** Two integer multiples of a positive u that are equal have equal factors. */
  lemma ScaleCancels(k: int, m: int, u: real, y: real)
    requires u > 0.0
    requires y == (k as real) * u
    requires y == (m as real) * u
    ensures k == m
  {
    assert ((k - m) as real) * u == (k as real) * u - (m as real) * u;
    IntScale(k - m, u);
  }

  /** The projected centers of a cell and of each of its six candidate
      tangent cells are exactly a tangent offset apart. */
  lemma CandidateCentersAtTangentOffset(g: Geometry, c: GridCoords, p: GridCoords)
    requires p in TangentCandidates(c)
    ensures TangentOffset(g, CenterOffset(g, c, p))
  {
    var o := CenterOffset(g, c, p);
    var k, j := p.row - c.row, p.col - c.col;
    CenterOffsetX(g, c, p);
    CenterOffsetY(g, c, p);
    RowParity(c.row, p.row);
    assert k == 2 || k == -2 || k == 1 || k == -1;
    if k == 2 || k == -2 {
      assert j == 0;
    } else if IsEven(c.row) {
      assert j == 0 || j == -1;
    } else {
      assert j == 0 || j == 1;
    }
  }

  /** The arithmetic behind `TangentOffsetIsCandidate`: an offset of k
      half-heights and j column spacings, shifted by the odd-row shift when
      the parities differ, is a tangent offset only for the six candidate
      pairs (k, j). */
  lemma TangentOffsetSteps(g: Geometry, k: int, j: int, o: Point, aEven: bool, bEven: bool)
    requires g.Valid()
    requires o.y == (k as real) * g.halfHeight
    requires aEven == bEven ==> o.x == (j as real) * (3.0 * g.radius)
    requires aEven && !bEven ==> o.x == (j as real) * (3.0 * g.radius) + 1.5 * g.radius
    requires !aEven && bEven ==> o.x == (j as real) * (3.0 * g.radius) - 1.5 * g.radius
    requires k == 0 || k == 2 || k == -2 ==> aEven == bEven
    requires k == 1 || k == -1 ==> aEven != bEven
    requires TangentOffset(g, o)
    ensures || ((k == 2 || k == -2) && j == 0)
            || ((k == 1 || k == -1) && (aEven ==> j == 0 || j == -1) && (!aEven ==> j == 0 || j == 1))
  {
    var r, h := g.radius, g.halfHeight;
    if o.y == 2.0 * h || o.y == -2.0 * h {
      ScaleCancels(k, if o.y == h + h then 2 else -2, h, o.y);
      ScaleCancels(j, 0, 3.0 * r, o.x);
    } else {
      ScaleCancels(k, if o.y == h then 1 else -1, h, o.y);
      if aEven {
        ScaleCancels(j, if o.x == 1.5 * r then 0 else -1, 3.0 * r, o.x - 1.5 * r);
      } else {
        ScaleCancels(j, if o.x == 1.5 * r then 1 else 0, 3.0 * r, o.x + 1.5 * r);
      }
    }
  }

  /** Conversely, a cell whose center sits a tangent offset away from that
      of `c` is one of the six candidates of `c`. */
  lemma TangentOffsetIsCandidate(g: Geometry, c: GridCoords, p: GridCoords)
    requires g.Valid()
    requires TangentOffset(g, CenterOffset(g, c, p))
    ensures p in TangentCandidates(c)
  {
    var k, j := p.row - c.row, p.col - c.col;
    CenterOffsetX(g, c, p);
    CenterOffsetY(g, c, p);
    RowParity(c.row, p.row);
    TangentOffsetSteps(g, k, j, CenterOffset(g, c, p), IsEven(c.row), IsEven(p.row));
    assert p == GridCoords(c.row + k, c.col + j);
  }

  /** The hexagon drawn for the cell at `c`. */
  function CellHexagon(g: Geometry, c: GridCoords): seq<Point> {
    HexagonRing(g, HexCenter(g, c.row, c.col))
  }

  /** Side i of `mine` (from corner i to corner i+1) is side i+3 of `theirs`
      traversed the other way: the two hexagons meet along that side. */
  ghost predicate SharesSide(mine: seq<Point>, theirs: seq<Point>, i: int) {
    && |mine| == 6 && |theirs| == 6 && 0 <= i < 6
    && mine[i] == theirs[(i + 4) % 6] && mine[(i + 1) % 6] == theirs[(i + 3) % 6]
  }

  /** Where a hexagon must sit to meet side i of the hexagon at the origin:
      side i runs from corner i to corner i+1 of the ring right, top right,
      top left, left, bottom left, bottom right. */
  function SideOffset(g: Geometry, i: int): Point {
    var r, h := g.radius, g.halfHeight;
    if i == 0 then Point(1.5 * r, h)
    else if i == 1 then Point(0.0, 2.0 * h)
    else if i == 2 then Point(-1.5 * r, h)
    else if i == 3 then Point(-1.5 * r, -h)
    else if i == 4 then Point(0.0, -2.0 * h)
    else Point(1.5 * r, -h)
  }

  /** Two hexagons meet along side i of the first exactly when the second
      is centered at the side's offset from the first. */
  lemma SharesSideAt(g: Geometry, cc: Point, pc: Point, i: int)
    requires 0 <= i < 6
    ensures SharesSide(HexagonRing(g, cc), HexagonRing(g, pc), i) <==>
      pc.x - cc.x == SideOffset(g, i).x && pc.y - cc.y == SideOffset(g, i).y
  {
  }

  /** The six side offsets are exactly the tangent offsets. */
  lemma TangentOffsetsAreSideOffsets(g: Geometry, o: Point)
    requires g.Valid()
    ensures TangentOffset(g, o) <==> exists i :: 0 <= i < 6 && o == SideOffset(g, i)
  {
    if TangentOffset(g, o) {
      var r, h := g.radius, g.halfHeight;
      var i :=
        if o.x == 0.0 then (if o.y == 2.0 * h then 1 else 4)
        else if o.x == 1.5 * r && o.y == h then 0
        else if o.y == h then 2
        else if o.x == -1.5 * r then 3
        else 5;
      assert o == SideOffset(g, i);
    }
  }

  /** A cell's hexagon and the hexagon of one of its candidate tangent cells
      meet along a whole side; two hexagons that meet along a side are
      candidate tangents of each other. */
  lemma CandidatesShareASide(g: Geometry, c: GridCoords, p: GridCoords)
    requires g.Valid()
    ensures p in TangentCandidates(c) <==> exists i :: SharesSide(CellHexagon(g, c), CellHexagon(g, p), i)
  {
    var o := CenterOffset(g, c, p);
    var cc, pc := HexCenter(g, c.row, c.col), HexCenter(g, p.row, p.col);
    TangentOffsetsAreSideOffsets(g, o);
    if p in TangentCandidates(c) {
      CandidateCentersAtTangentOffset(g, c, p);
      var i :| 0 <= i < 6 && o == SideOffset(g, i);
      SharesSideAt(g, cc, pc, i);
    }
    if i :| SharesSide(CellHexagon(g, c), CellHexagon(g, p), i) {
      SharesSideAt(g, cc, pc, i);
      TangentOffsetIsCandidate(g, c, p);
    }
  }

  /** Cells at non-negative coordinates never cross the left or the top
      border of the canvas: every corner has non-negative coordinates, and
      the hexagon of cell (0, 0) touches both borders. The right and bottom
      borders depend on the canvas size and are not covered. */
  lemma CornersNonNegative(g: Geometry, c: GridCoords)
    requires g.Valid()
    requires c.row >= 0 && c.col >= 0
    ensures forall v :: v in CellHexagon(g, c) ==> v.x >= 0.0 && v.y >= 0.0
    ensures c == GridCoords(0, 0) ==> CellHexagon(g, c)[3].x == 0.0 && CellHexagon(g, c)[4].y == 0.0
  {
    var center := HexCenter(g, c.row, c.col);
    CenterPastFirstCell(g, c, center);
  }

  /** A center at non-negative coordinates is at least one radius from the
      left border and one half-height from the top one, and cell (0, 0) is
      centered exactly there. */
  lemma CenterPastFirstCell(g: Geometry, c: GridCoords, center: Point)
    requires g.Valid()
    requires c.row >= 0 && c.col >= 0
    requires center == HexCenter(g, c.row, c.col)
    ensures center.x >= g.radius && center.y >= g.halfHeight
    ensures c == GridCoords(0, 0) ==> center == Point(g.radius, g.halfHeight)
  {
    IntScale(c.col, g.OffsetByCol());
    IntScale(c.row, g.halfHeight);
    assert center.y == (c.row as real) * g.halfHeight + g.halfHeight;
  }
}
