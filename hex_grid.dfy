/** The grid model of the hexagon sketch: the four cell types, the creation of
    a map of random cells, and the tangency rule of the staggered layout in
    which even rows start at the left edge and odd rows 1.5 radii (half the
    column spacing) to the right. */
module HexGrid {

  /** The type of a cell. */
  datatype Hexagon = Air | Water | Fire | Earth

  /** The cell types in the order the sketch lists them (the values of a
      record written air, earth, fire, water). */
  const HexagonTypes: seq<Hexagon> := [Air, Earth, Fire, Water]

  /** A map is an array of rows, each an array of cells. The maps that
      CreateHexagonMap builds are rectangular. */
  type HexagonMap = seq<seq<Hexagon>>

  datatype GridCoords = GridCoords(row: int, col: int)

  datatype Option<T> = None | Some(value: T)

  function Abs(a: int): int { if a < 0 then -a else a }

  // ---------------------------------------------------------------------
  // isEven, with the remainder operator of JavaScript
  // ---------------------------------------------------------------------

  /** JavaScript's `%` on integers: the remainder of a division truncated
      toward zero, which takes the sign of the dividend. */
  function JsRem(a: int, b: int): (r: int)
    requires b != 0
    ensures a >= 0 ==> 0 <= r < Abs(b)
    ensures a < 0 ==> -Abs(b) < r <= 0
    ensures exists q :: a == q * b + r
  {
    if a >= 0 then
      assert a == (a / b) * b + a % b;
      a % b
    else
      var q := (-a) / b;
      assert -a == q * b + (-a) % b;
      assert a == (-q) * b + -((-a) % b);
      -((-a) % b)
  }

  predicate IsEven(n: int) {
    JsRem(n, 2) == 0
  }

  /** Evenness as the sketch computes it is the usual one, whatever the sign
      of n, and it alternates from one integer to the next. */
  lemma IsEvenParity(n: int)
    ensures IsEven(n) <==> n % 2 == 0
    ensures IsEven(n) <==> exists k :: n == 2 * k
    ensures IsEven(n + 1) <==> !IsEven(n)
    ensures IsEven(n - 1) <==> !IsEven(n)
    ensures IsEven(n + 2) <==> IsEven(n)
    ensures IsEven(n - 2) <==> IsEven(n)
  {
    if n % 2 == 0 {
      assert n == 2 * (n / 2);
    }
  }

  // ---------------------------------------------------------------------
  // Creating a map
  // ---------------------------------------------------------------------

  /** Picks the element of `a` at index floor(random * |a|), where `random`
      is a value of Math.random() in [0, 1). An empty array gives no element
      (undefined in the sketch). */
  function GetRandomFromArray<T>(a: seq<T>, random: real): (r: Option<T>)
    requires 0.0 <= random < 1.0
    ensures r.Some? <==> |a| > 0
    ensures r.Some? ==> r.value in a
    ensures r.Some? ==>
      exists i :: 0 <= i < |a| && a[i] == r.value &&
                  (i as real) <= random * (|a| as real) < (i + 1) as real
  {
    var i := (random * (|a| as real)).Floor;
    if |a| > 0 then ScaledIndexInRange(random, |a|); Some(a[i]) else None
  }

  /** Every element can be picked: the value i / |a| of Math.random() picks
      the element at index i. */
  lemma GetRandomFromArrayReaches<T>(a: seq<T>, i: int)
    requires 0 <= i < |a|
    ensures var random := (i as real) / (|a| as real);
      0.0 <= random < 1.0 && GetRandomFromArray(a, random) == Some(a[i])
  {
    var n := |a| as real;
    var random := (i as real) / n;
    assert random * n == i as real;
    assert (random * n).Floor == i;
    assert random < 1.0;
  }

  /** Scaling a value of [0, 1) by a positive length and rounding down gives
      an index of that length. */
  lemma ScaledIndexInRange(random: real, n: int)
    requires 0.0 <= random < 1.0 && n > 0
    ensures 0 <= (random * (n as real)).Floor < n
  {
    var x := random * (n as real);
    assert x >= 0.0;
    assert (n as real) - x == (1.0 - random) * (n as real);
    assert (1.0 - random) * (n as real) > 0.0;
  }

  /** Every row has exactly `cols` cells and there are exactly `rows` rows. */
  ghost predicate Rectangular(m: HexagonMap, rows: int, cols: int) {
    |m| == rows && forall i :: 0 <= i < |m| ==> |m[i]| == cols
  }

  /** Builds a map of `rows` rows of `cols` cells each (none when a count is
      not positive), every cell of a type drawn at random. */
  method CreateHexagonMap(rows: int, cols: int) returns (hexes: HexagonMap)
    ensures Rectangular(hexes, if rows < 0 then 0 else rows, if cols < 0 then 0 else cols)
    ensures forall i, j :: 0 <= i < |hexes| && 0 <= j < |hexes[i]| ==> hexes[i][j] in HexagonTypes
  {
    hexes := [];
    var i := 0;
    while i < rows
      invariant 0 <= i <= (if rows < 0 then 0 else rows)
      invariant Rectangular(hexes, i, if cols < 0 then 0 else cols)
      invariant forall i', j :: 0 <= i' < |hexes| && 0 <= j < |hexes[i']| ==> hexes[i'][j] in HexagonTypes
    {
      var row: seq<Hexagon> := [];
      var j := 0;
      while j < cols
        invariant 0 <= j <= (if cols < 0 then 0 else cols)
        invariant |row| == j
        invariant forall k :: 0 <= k < |row| ==> row[k] in HexagonTypes
      {
        var random: real :| 0.0 <= random < 1.0;
        var picked := GetRandomFromArray(HexagonTypes, random);
        row := row + [picked.value];
        j := j + 1;
      }
      hexes := hexes + [row];
      i := i + 1;
    }
  }

  // ---------------------------------------------------------------------
  // Tangent cells
  // ---------------------------------------------------------------------

  /** A coordinate is present when the map has a cell there: the row exists
      and that row has the column. Every cell of the sketch's maps is a
      non-empty string, so presence is what the sketch's truthiness test
      `map[row]?.[col]` decides. */
  predicate Present(m: HexagonMap, p: GridCoords) {
    0 <= p.row < |m| && 0 <= p.col < |m[p.row]|
  }

  /** On a rectangular map, presence is a bounds check. */
  lemma PresentInRectangle(m: HexagonMap, rows: int, cols: int, p: GridCoords)
    requires Rectangular(m, rows, cols)
    ensures Present(m, p) <==> 0 <= p.row < rows && 0 <= p.col < cols
  {
  }

  /** The six cells that touch `c` in the staggered layout, in the order
      the sketch lists them: two rows up and down in the same column, then
      the row above and the row below, each at the same column and at the
      column one to the left (even rows) or one to the right (odd rows). */
  function TangentCandidates(c: GridCoords): seq<GridCoords> {
    var r, k := c.row, c.col;
    if IsEven(r) then
      [GridCoords(r - 2, k), GridCoords(r + 2, k),
       GridCoords(r - 1, k), GridCoords(r - 1, k - 1),
       GridCoords(r + 1, k), GridCoords(r + 1, k - 1)]
    else
      [GridCoords(r - 2, k), GridCoords(r + 2, k),
       GridCoords(r - 1, k), GridCoords(r - 1, k + 1),
       GridCoords(r + 1, k), GridCoords(r + 1, k + 1)]
  }

  /** The coordinate if the map has a cell there, null otherwise. */
  function Probe(m: HexagonMap, p: GridCoords): Option<GridCoords> {
    if Present(m, p) then Some(p) else None
  }

  function Probes(m: HexagonMap, cs: seq<GridCoords>): (ps: seq<Option<GridCoords>>)
    ensures |ps| == |cs|
  {
    if cs == [] then [] else [Probe(m, cs[0])] + Probes(m, cs[1..])
  }

  /** The non-null entries of a list, in order (a filter with isNotNull). */
  function Somes<T(!new)>(xs: seq<Option<T>>): (r: seq<T>)
    ensures |r| <= |xs|
    ensures forall x :: x in r <==> Some(x) in xs
  {
    if xs == [] then []
    else (if xs[0].Some? then [xs[0].value] else []) + Somes(xs[1..])
  }

  /** The cells that touch `c` and are present in the map. */
  function Tangents(m: HexagonMap, c: GridCoords): (ts: seq<GridCoords>)
    ensures forall p :: p in ts <==> p in TangentCandidates(c) && Present(m, p)
  {
    var ps := Probes(m, TangentCandidates(c));
    assert forall p :: Some(p) in ps <==> p in TangentCandidates(c) && Present(m, p) by {
      ProbesMembership(m, TangentCandidates(c));
    }
    Somes(ps)
  }

  lemma {:induction false} ProbesMembership(m: HexagonMap, cs: seq<GridCoords>)
    ensures forall p :: Some(p) in Probes(m, cs) <==> p in cs && Present(m, p)
  {
    if cs != [] {
      ProbesMembership(m, cs[1..]);
      assert cs == [cs[0]] + cs[1..];
    }
  }

  // ---------------------------------------------------------------------
  // A reference definition of "those candidates that are present, in order"
  // ---------------------------------------------------------------------

  /** The elements of `s` present in the map, kept in their order in `s`. */
  function PresentOnly(m: HexagonMap, s: seq<GridCoords>): seq<GridCoords> {
    if s == [] then []
    else if Present(m, s[0]) then [s[0]] + PresentOnly(m, s[1..])
    else PresentOnly(m, s[1..])
  }

  predicate NoDuplicates<T(==)>(s: seq<T>) {
    forall i, j :: 0 <= i < j < |s| ==> s[i] != s[j]
  }

  /** Probing every candidate and dropping the nulls keeps exactly the
      present candidates, in their order. */
  lemma {:induction false} SomesOfProbes(m: HexagonMap, cs: seq<GridCoords>)
    ensures Somes(Probes(m, cs)) == PresentOnly(m, cs)
  {
    if cs != [] {
      SomesOfProbes(m, cs[1..]);
      assert Probes(m, cs)[1..] == Probes(m, cs[1..]);
    }
  }

  /** PresentOnly keeps exactly the present elements, is no longer than its
      input and keeps a duplicate-free list duplicate-free. */
  lemma {:induction false} PresentOnlyProperties(m: HexagonMap, s: seq<GridCoords>)
    ensures |PresentOnly(m, s)| <= |s|
    ensures forall p :: p in PresentOnly(m, s) <==> p in s && Present(m, p)
    ensures NoDuplicates(s) ==> NoDuplicates(PresentOnly(m, s))
  {
    if s != [] {
      PresentOnlyProperties(m, s[1..]);
      assert s == [s[0]] + s[1..];
    }
  }

  /** When every element is present, nothing is dropped. */
  lemma {:induction false} PresentOnlyAll(m: HexagonMap, s: seq<GridCoords>)
    requires forall p :: p in s ==> Present(m, p)
    ensures PresentOnly(m, s) == s
  {
    if s != [] {
      assert s == [s[0]] + s[1..];
      PresentOnlyAll(m, s[1..]);
    }
  }

  /** When no element is present, everything is dropped. */
  lemma {:induction false} PresentOnlyNone(m: HexagonMap, s: seq<GridCoords>)
    requires forall p :: p in s ==> !Present(m, p)
    ensures PresentOnly(m, s) == []
  {
    if s != [] {
      assert s == [s[0]] + s[1..];
      PresentOnlyNone(m, s[1..]);
    }
  }

  // ---------------------------------------------------------------------
  // The tangency rule
  // ---------------------------------------------------------------------

  /** Even row: the result is (r-2,c), (r+2,c), (r-1,c), (r-1,c-1),
      (r+1,c), (r+1,c-1), restricted to the cells present, in that order. */
  lemma TangentsEvenRow(m: HexagonMap, c: GridCoords)
    requires IsEven(c.row)
    ensures Tangents(m, c) == PresentOnly(m,
              [GridCoords(c.row - 2, c.col), GridCoords(c.row + 2, c.col),
               GridCoords(c.row - 1, c.col), GridCoords(c.row - 1, c.col - 1),
               GridCoords(c.row + 1, c.col), GridCoords(c.row + 1, c.col - 1)])
  {
    SomesOfProbes(m, TangentCandidates(c));
  }

  /** Odd row: the result is (r-2,c), (r+2,c), (r-1,c), (r-1,c+1),
      (r+1,c), (r+1,c+1), restricted to the cells present, in that order. */
  lemma TangentsOddRow(m: HexagonMap, c: GridCoords)
    requires !IsEven(c.row)
    ensures Tangents(m, c) == PresentOnly(m,
              [GridCoords(c.row - 2, c.col), GridCoords(c.row + 2, c.col),
               GridCoords(c.row - 1, c.col), GridCoords(c.row - 1, c.col + 1),
               GridCoords(c.row + 1, c.col), GridCoords(c.row + 1, c.col + 1)])
  {
    SomesOfProbes(m, TangentCandidates(c));
  }

  /** The six candidates are pairwise distinct and none of them is `c`. */
  lemma CandidatesDistinct(c: GridCoords)
    ensures NoDuplicates(TangentCandidates(c))
    ensures c !in TangentCandidates(c)
  {
  }

  /** On a rows x cols map, the result holds at most six coordinates, all
      within bounds, none twice and none equal to `c`. */
  lemma TangentsBounded(m: HexagonMap, rows: int, cols: int, c: GridCoords)
    requires Rectangular(m, rows, cols)
    ensures |Tangents(m, c)| <= 6
    ensures NoDuplicates(Tangents(m, c))
    ensures c !in Tangents(m, c)
    ensures forall p :: p in Tangents(m, c) ==> 0 <= p.row < rows && 0 <= p.col < cols
  {
    SomesOfProbes(m, TangentCandidates(c));
    CandidatesDistinct(c);
    PresentOnlyProperties(m, TangentCandidates(c));
  }

  /** Tangency is mutual: the candidate relation is symmetric. */
  lemma CandidatesSymmetric(c: GridCoords, p: GridCoords)
    requires p in TangentCandidates(c)
    ensures c in TangentCandidates(p)
  {
    IsEvenParity(c.row);
    IsEvenParity(p.row);
  }

  /** If n touches a cell c of the map, then c touches n. */
  lemma TangentsMutual(m: HexagonMap, c: GridCoords, n: GridCoords)
    requires Present(m, c)
    requires n in Tangents(m, c)
    ensures c in Tangents(m, n)
  {
    CandidatesSymmetric(c, n);
  }

  // ---------------------------------------------------------------------
  // The worked examples of the sketch, on a 6 x 4 map
  // ---------------------------------------------------------------------

  /** J, at row 2 and column 1, touches B, R, F, E, N and M. */
  lemma TangentsOfJ(m: HexagonMap)
    requires Rectangular(m, 6, 4)
    ensures Tangents(m, GridCoords(2, 1)) ==
      [GridCoords(0, 1), GridCoords(4, 1), GridCoords(1, 1),
       GridCoords(1, 0), GridCoords(3, 1), GridCoords(3, 0)]
  {
    var c := GridCoords(2, 1);
    SomesOfProbes(m, TangentCandidates(c));
    PresentOnlyAll(m, TangentCandidates(c));
  }

  /** M, at row 3 and column 0, touches E, U, I, J, Q and R. */
  lemma TangentsOfM(m: HexagonMap)
    requires Rectangular(m, 6, 4)
    ensures Tangents(m, GridCoords(3, 0)) ==
      [GridCoords(1, 0), GridCoords(5, 0), GridCoords(2, 0),
       GridCoords(2, 1), GridCoords(4, 0), GridCoords(4, 1)]
  {
    var c := GridCoords(3, 0);
    SomesOfProbes(m, TangentCandidates(c));
    PresentOnlyAll(m, TangentCandidates(c));
  }

  /** The only cell of a 1 x 1 map touches nothing. */
  lemma TangentsOfLoneCell(m: HexagonMap)
    requires Rectangular(m, 1, 1)
    ensures Tangents(m, GridCoords(0, 0)) == []
  {
    var c := GridCoords(0, 0);
    SomesOfProbes(m, TangentCandidates(c));
    PresentOnlyNone(m, TangentCandidates(c));
  }
}
