/**
 * Custom_Torus: a torus built from `sections` rings around the main axis,
 * each cut into `tube_slices` points around the tube. Grid point (i, j) is
 * the vertex at angles 2*pi*i/sections and 2*pi*j/tube_slices; its
 * position and normal are trigonometric functions of those angles (and of
 * the two radii) and are kept here as the grid point itself. The model
 * tracks the numbering of vertices and the index buffer that stitches them
 * into triangles, with wrap-around at the last ring and the last slice.
 */
module Torus {

  /** The vertex at ring `section`, tube slice `slice`. */
  datatype GridPoint = GridPoint(section: nat, slice: nat)

  datatype TexCoord = TexCoord(u: real, v: real)

  /** The number the constructor gives grid point (i, j): i * tube_slices + j. */
  function Vertex(i: nat, j: nat, t: nat): nat
  {
    i * t + j
  }

  /** Multiplying by a count keeps the order: a <= b gives a * t <= b * t. */
  lemma {:induction false} MulMonotone(a: nat, b: nat, t: nat)
    requires a <= b
    ensures a * t <= b * t
    decreases b - a
  {
    if a < b {
      MulMonotone(a + 1, b, t);
      assert (a + 1) * t == a * t + t;
    }
  }

  /** Every grid point is numbered below sections * tube_slices. */
  lemma VertexBelow(i: nat, j: nat, s: nat, t: nat)
    requires i < s && j < t
    ensures Vertex(i, j, t) < s * t
  {
    MulMonotone(i + 1, s, t);
    assert (i + 1) * t == i * t + t;
  }

  /** Distinct grid points get distinct numbers. */
  lemma VertexInjective(a: nat, b: nat, c: nat, d: nat, t: nat)
    requires b < t && d < t
    requires Vertex(a, b, t) == Vertex(c, d, t)
    ensures a == c && b == d
  {
    if a < c {
      VertexBelow(a, b, c, t);
    } else if c < a {
      VertexBelow(c, d, a, t);
    }
  }

  /**
   * The texture coordinate of grid point (i, j): (1 - i/sections,
   * 1 - j/tube_slices), inside the unit square.
   */
  function TexOf(p: GridPoint, s: nat, t: nat): (c: TexCoord)
    requires p.section < s && p.slice < t
    ensures 0.0 < c.u <= 1.0 && 0.0 < c.v <= 1.0
  {
    Fraction(p.section, s);
    Fraction(p.slice, t);
    TexCoord(1.0 - p.section as real / s as real, 1.0 - p.slice as real / t as real)
  }

  /** a / b lies in [0, 1) when a < b. */
  lemma Fraction(a: nat, b: nat)
    requires a < b
    ensures 0.0 <= a as real / b as real < 1.0
  {
    var q := a as real / b as real;
    assert q * b as real == a as real;
  }

  /** The ring or slice after i among n, wrapping around to 0. */
  function Next(i: nat, n: nat): nat
  {
    if i + 1 == n then 0 else i + 1
  }

  /** The wrap-around is the source's (i + 1) % n. */
  lemma NextIsModulo(i: nat, n: nat)
    requires i < n
    ensures Next(i, n) == (i + 1) % n
  {
    if i + 1 == n {
      assert (i + 1) % n == 0;
    } else {
      assert (i + 1) % n == i + 1;
    }
  }

  /**
   * The six indices pushed for grid point (i, j): the triangles
   * (i,j), (i+1,j), (i,j+1) and (i+1,j), (i+1,j+1), (i,j+1), where i+1 and
   * j+1 wrap around to 0.
   */
  function CellIndices(p: GridPoint, s: nat, t: nat): (r: seq<nat>)
    requires p.section < s && p.slice < t
    ensures |r| == 6
    ensures forall k :: 0 <= k < 6 ==> r[k] < s * t
  {
    var i, j := p.section, p.slice;
    var ni, nj := Next(i, s), Next(j, t);
    VertexBelow(i, j, s, t);
    VertexBelow(ni, j, s, t);
    VertexBelow(i, nj, s, t);
    VertexBelow(ni, nj, s, t);
    [Vertex(i, j, t), Vertex(ni, j, t), Vertex(i, nj, t),
     Vertex(ni, j, t), Vertex(ni, nj, t), Vertex(i, nj, t)]
  }

  // ------------------------------------------------------------ vertex order

  /** Grid points (i, 0) .. (i, j - 1): the inner loop's first j turns for ring i. */
  function RowPoints(i: nat, j: nat): (r: seq<GridPoint>)
    ensures |r| == j
    ensures forall k :: 0 <= k < j ==> r[k] == GridPoint(i, k)
  {
    if j == 0 then [] else RowPoints(i, j - 1) + [GridPoint(i, j - 1)]
  }

  /** The grid points of rings 0 .. n - 1, in the order the nested loops visit them. */
  function GridRows(n: nat, t: nat): (r: seq<GridPoint>)
    ensures |r| == n * t
    ensures forall k :: 0 <= k < |r| ==> r[k].section < n && r[k].slice < t
  {
    if n == 0 then []
    else
      var r := GridRows(n - 1, t) + RowPoints(n - 1, t);
      assert |r| == (n - 1) * t + t == n * t;
      r
  }

  /** Every vertex of the torus, in push order. */
  function Grid(s: nat, t: nat): seq<GridPoint>
  {
    GridRows(s, t)
  }

  /** The vertex numbered i * tube_slices + j is the one pushed for grid point (i, j). */
  lemma {:induction false} GridAt(i: nat, j: nat, n: nat, t: nat)
    requires i < n && j < t
    ensures Vertex(i, j, t) < |GridRows(n, t)|
    ensures GridRows(n, t)[Vertex(i, j, t)] == GridPoint(i, j)
  {
    var prev := GridRows(n - 1, t);
    if i == n - 1 {
      assert Vertex(i, j, t) == |prev| + j;
    } else {
      GridAt(i, j, n - 1, t);
    }
  }

  // ------------------------------------------------------------- index buffer

  predicate OnGrid(ps: seq<GridPoint>, s: nat, t: nat)
  {
    forall k :: 0 <= k < |ps| ==> ps[k].section < s && ps[k].slice < t
  }

  /** The indices the loop pushes for the grid points ps, in order. */
  function Cells(ps: seq<GridPoint>, s: nat, t: nat): (r: seq<nat>)
    requires OnGrid(ps, s, t)
    ensures |r| == 6 * |ps|
    ensures forall k :: 0 <= k < |r| ==> r[k] < s * t
  {
    if ps == [] then []
    else Cells(ps[..|ps| - 1], s, t) + CellIndices(ps[|ps| - 1], s, t)
  }

  /** The whole index buffer. */
  function TorusIndices(s: nat, t: nat): seq<nat>
  {
    Cells(Grid(s, t), s, t)
  }

  /** The six indices of the k-th grid point start at position 6 * k. */
  lemma {:induction false} CellsAt(ps: seq<GridPoint>, s: nat, t: nat, k: nat, m: nat)
    requires OnGrid(ps, s, t)
    requires k < |ps| && m < 6
    ensures Cells(ps, s, t)[6 * k + m] == CellIndices(ps[k], s, t)[m]
  {
    var init := ps[..|ps| - 1];
    if k < |ps| - 1 {
      CellsAt(init, s, t, k, m);
      assert init[k] == ps[k];
    }
  }

  /**
   * The counts of the constructor: sections * tube_slices vertices and six
   * indices for each, every index naming one of the vertices.
   */
  lemma TorusCounts(s: nat, t: nat)
    ensures |Grid(s, t)| == s * t
    ensures |TorusIndices(s, t)| == 6 * s * t
    ensures forall k :: 0 <= k < |TorusIndices(s, t)| ==> TorusIndices(s, t)[k] < |Grid(s, t)|
  {
  }

  /** The six indices of grid point (i, j) sit at position 6 * (i * tube_slices + j). */
  lemma CellSlice(i: nat, j: nat, s: nat, t: nat)
    requires i < s && j < t
    ensures 6 * Vertex(i, j, t) + 6 <= |TorusIndices(s, t)|
    ensures TorusIndices(s, t)[6 * Vertex(i, j, t) .. 6 * Vertex(i, j, t) + 6] == CellIndices(GridPoint(i, j), s, t)
  {
    var g := Grid(s, t);
    var v := Vertex(i, j, t);
    GridAt(i, j, s, t);
    forall m | 0 <= m < 6
      ensures TorusIndices(s, t)[6 * v + m] == CellIndices(GridPoint(i, j), s, t)[m]
    {
      CellsAt(g, s, t, v, m);
    }
  }

  /**
   * The triangles of cell (i, j) join the grid points (i,j), (i+1,j),
   * (i,j+1) and (i+1,j), (i+1,j+1), (i,j+1), with the next ring and the
   * next slice wrapping around to 0.
   */
  lemma CellCorners(i: nat, j: nat, s: nat, t: nat)
    requires i < s && j < t
    ensures var idx, g := TorusIndices(s, t), Grid(s, t);
      var ni, nj := Next(i, s), Next(j, t);
      var v := Vertex(i, j, t);
      && 6 * v + 6 <= |idx|
      && var c := idx[6 * v .. 6 * v + 6];
      && (forall m :: 0 <= m < 6 ==> c[m] < |g|)
      && g[c[0]] == GridPoint(i, j) && g[c[1]] == GridPoint(ni, j) && g[c[2]] == GridPoint(i, nj)
      && g[c[3]] == GridPoint(ni, j) && g[c[4]] == GridPoint(ni, nj) && g[c[5]] == GridPoint(i, nj)
  {
    CellSlice(i, j, s, t);
    GridAt(i, j, s, t);
    GridAt(Next(i, s), j, s, t);
    GridAt(i, Next(j, t), s, t);
    GridAt(Next(i, s), Next(j, t), s, t);
  }

  /** The index buffer starts each grid point's six indices with that grid point's own number. */
  lemma EveryVertexUsed(v: nat, s: nat, t: nat)
    requires v < s * t
    ensures 6 * v < |TorusIndices(s, t)| && TorusIndices(s, t)[6 * v] == v
  {
    assert t > 0;
    var i, j := v / t, v % t;
    assert v == i * t + j;
    assert i < s by {
      if i >= s {
        MulMonotone(s, i, t);
      }
    }
    GridAt(i, j, s, t);
    TorusCounts(s, t);
    CellsAt(Grid(s, t), s, t, v, 0);
  }

  /** The last ring is stitched to ring 0 and the last slice to slice 0. */
  lemma WrapAround(s: nat, t: nat, i: nat, j: nat)
    requires i < s && j < t
    ensures i == s - 1 ==> CellIndices(GridPoint(i, j), s, t)[1] == Vertex(0, j, t)
    ensures j == t - 1 ==> CellIndices(GridPoint(i, j), s, t)[2] == Vertex(i, 0, t)
    ensures i == s - 1 && j == t - 1 ==> CellIndices(GridPoint(i, j), s, t)[4] == Vertex(0, 0, t)
  {
  }

  /**
   * With at least two rings and two slices, no triangle is degenerate: the
   * three corners of each triangle are distinct vertices.
   */
  lemma TrianglesNonDegenerate(i: nat, j: nat, s: nat, t: nat)
    requires i < s && j < t && s >= 2 && t >= 2
    ensures var c := CellIndices(GridPoint(i, j), s, t);
      && c[0] != c[1] && c[1] != c[2] && c[0] != c[2]
      && c[3] != c[4] && c[4] != c[5] && c[3] != c[5]
  {
    var ni, nj := Next(i, s), Next(j, t);
    assert ni != i && nj != j;
    var c := CellIndices(GridPoint(i, j), s, t);
    if c[0] == c[1] { VertexInjective(i, j, ni, j, t); }
    if c[1] == c[2] { VertexInjective(ni, j, i, nj, t); }
    if c[0] == c[2] { VertexInjective(i, j, i, nj, t); }
    if c[4] == c[3] { VertexInjective(ni, nj, ni, j, t); }
    if c[4] == c[5] { VertexInjective(ni, nj, i, nj, t); }
  }

  // -------------------------------------------------------------- the shape

  /** The two pushes of the loop body make up the six indices of the grid point. */
  lemma TwoPushes(i: nat, j: nat, s: nat, t: nat, nextI: nat, nextJ: nat)
    requires i < s && j < t && nextI == (i + 1) % s && nextJ == (j + 1) % t
    ensures [Vertex(i, j, t), Vertex(nextI, j, t), Vertex(i, nextJ, t)]
            + [Vertex(nextI, j, t), Vertex(nextI, nextJ, t), Vertex(i, nextJ, t)]
            == CellIndices(GridPoint(i, j), s, t)
  {
    NextIsModulo(i, s);
    NextIsModulo(j, t);
  }

  /** The texture coordinates of the grid points ps. */
  function TexCoords(ps: seq<GridPoint>, s: nat, t: nat): (r: seq<TexCoord>)
    requires OnGrid(ps, s, t)
    ensures |r| == |ps|
    ensures forall k :: 0 <= k < |ps| ==> r[k] == TexOf(ps[k], s, t)
  {
    if ps == [] then [] else TexCoords(ps[..|ps| - 1], s, t) + [TexOf(ps[|ps| - 1], s, t)]
  }

  /** What the constructor's loops keep about the arrays pushed so far. */
  predicate Pushed(position: seq<GridPoint>, textureCoord: seq<TexCoord>, index: seq<nat>, s: nat, t: nat)
  {
    && OnGrid(position, s, t)
    && textureCoord == TexCoords(position, s, t)
    && index == Cells(position, s, t)
  }

  /**
   * One turn of the inner loop: pushing grid point (i, j), its texture
   * coordinate (1 - i/s, 1 - j/t) and the two index triples keeps the
   * arrays in step.
   */
  lemma PushPoint(position: seq<GridPoint>, textureCoord: seq<TexCoord>, index: seq<nat>,
                  i: nat, j: nat, s: nat, t: nat)
    requires Pushed(position, textureCoord, index, s, t) && i < s && j < t
    ensures Pushed(position + [GridPoint(i, j)],
                   textureCoord + [TexCoord(1.0 - i as real / s as real, 1.0 - j as real / t as real)],
                   index + [Vertex(i, j, t), Vertex((i + 1) % s, j, t), Vertex(i, (j + 1) % t, t)]
                         + [Vertex((i + 1) % s, j, t), Vertex((i + 1) % s, (j + 1) % t, t), Vertex(i, (j + 1) % t, t)],
                   s, t)
  {
    var ps := position + [GridPoint(i, j)];
    assert ps[..|position|] == position;
    var first := [Vertex(i, j, t), Vertex((i + 1) % s, j, t), Vertex(i, (j + 1) % t, t)];
    var second := [Vertex((i + 1) % s, j, t), Vertex((i + 1) % s, (j + 1) % t, t), Vertex(i, (j + 1) % t, t)];
    TwoPushes(i, j, s, t, (i + 1) % s, (j + 1) % t);
    assert index + first + second == index + (first + second);
  }

  /** The next grid point of ring i extends the rows pushed so far. */
  lemma NextInRow(i: nat, j: nat, t: nat)
    ensures GridRows(i, t) + RowPoints(i, j + 1) == GridRows(i, t) + RowPoints(i, j) + [GridPoint(i, j)]
  {
  }

  class CustomTorus {
    var positions: seq<GridPoint>
    var normals: seq<GridPoint>
    var textureCoords: seq<TexCoord>
    var indices: seq<nat>

    /**
     * The constructor's nested loops over rings i and tube slices j: one
     * position, normal and texture coordinate per grid point and six
     * indices per grid point.
     */
    constructor (sections: nat, tubeSlices: nat)
      ensures positions == Grid(sections, tubeSlices)
      ensures normals == positions
      ensures Pushed(positions, textureCoords, indices, sections, tubeSlices)
      ensures indices == TorusIndices(sections, tubeSlices)
    {
      var position: seq<GridPoint> := [];
      var normal: seq<GridPoint> := [];
      var textureCoord: seq<TexCoord> := [];
      var index: seq<nat> := [];
      var i := 0;
      while i < sections
        invariant 0 <= i <= sections
        invariant position == GridRows(i, tubeSlices) && normal == position
        invariant Pushed(position, textureCoord, index, sections, tubeSlices)
      {
        var j := 0;
        while j < tubeSlices
          invariant 0 <= j <= tubeSlices
          invariant position == GridRows(i, tubeSlices) + RowPoints(i, j) && normal == position
          invariant Pushed(position, textureCoord, index, sections, tubeSlices)
        {
          PushPoint(position, textureCoord, index, i, j, sections, tubeSlices);
          NextInRow(i, j, tubeSlices);
          position := position + [GridPoint(i, j)];
          normal := normal + [GridPoint(i, j)];
          textureCoord := textureCoord + [TexCoord(1.0 - i as real / sections as real, 1.0 - j as real / tubeSlices as real)];
          var nextI := (i + 1) % sections;
          var nextJ := (j + 1) % tubeSlices;
          index := index + [Vertex(i, j, tubeSlices), Vertex(nextI, j, tubeSlices), Vertex(i, nextJ, tubeSlices)];
          index := index + [Vertex(nextI, j, tubeSlices), Vertex(nextI, nextJ, tubeSlices), Vertex(i, nextJ, tubeSlices)];
          j := j + 1;
        }
        i := i + 1;
      }
      positions, normals, textureCoords, indices := position, normal, textureCoord, index;
    }
  }
}
