/** `PNTMeshViewer`: a grid of points over a rectangle, cut into triangles with one normal each, and the
    refresh that recomputes points and normals in place when the surface changes. */
module TriangleMesh {
  datatype Vec = Vec(x: real, y: real, z: real)

  /** The arrays of a mesh: three numbers to a point and to a normal, two to a texture coordinate; a face is
      three corners, each a point index, a normal index and a texture coordinate index. */
  datatype Mesh = Mesh(points: seq<real>, normals: seq<real>, texCoords: seq<real>, faces: seq<int>)

  /** A surface over the plane, and the normal of a triangle, both left open. */
  type Surface = (real, real) -> real
  type Normal = (Vec, Vec, Vec) -> Vec

  datatype Grid = Grid(subDivX: nat, subDivY: nat, scale: real) {
    predicate Ok() { subDivX > 0 && subDivY > 0 }

    function NumDivX(): nat { subDivX + 1 }

    /** The index of the point in row y and column x. */
    function Vert(y: nat, x: nat): nat { y * NumDivX() + x }

    /** The number of the cell in row y and column x. */
    function Cell(y: nat, x: nat): nat { y * subDivX + x }

    function NumVerts(): nat { (subDivY + 1) * NumDivX() }

    function FaceCount(): nat { subDivX * subDivY * 2 }
  }

  const RESOLUTION := 0.1

  /** The function value after a key. */
  function KeyedValue(value: real, key: char): real {
    if key == '[' then (if value - RESOLUTION < -20.0 then -20.0 else value - RESOLUTION)
    else if key == ']' then (if value + RESOLUTION > 20.0 then 20.0 else value + RESOLUTION)
    else -10.0
  }

  /** The brackets move the value by a tenth each way, undoing each other, but not out of its range; p puts it back. */
  lemma KeysMoveTheValue(value: real)
    requires -20.0 <= value <= 20.0
    ensures var down, up := KeyedValue(value, '['), KeyedValue(value, ']');
      && -20.0 <= down && up <= 20.0 && KeyedValue(value, 'p') == -10.0
      && (value >= -19.9 ==> value - down == 0.1 && KeyedValue(down, ']') == value)
      && (value <= 19.9 ==> up - value == 0.1 && KeyedValue(up, '[') == value)
      && (value < -19.9 ==> down == -20.0) && (value > 19.9 ==> up == 20.0)
  {
  }

  const MIN := -10.0
  const MAX := 10.0

  // ---------------------------------------------------------------- rows and columns

  lemma {:induction false} TimesUpTo(x: nat, y: nat, w: nat)
    requires x <= y
    ensures x * w <= y * w
  {
    if x < y {
      TimesUpTo(x, y - 1, w);
      assert y * w == (y - 1) * w + w;
    }
  }

  lemma NextRow(x: nat, y: nat, w: nat)
    requires x < y
    ensures x * w + w <= y * w
  {
    TimesUpTo(x + 1, y, w);
    assert (x + 1) * w == x * w + w;
  }

  /** Place x of row y, in rows of w. */
  lemma RowAndColumn(w: nat, y: nat, x: nat)
    requires x < w
    ensures (y * w + x) / w == y && (y * w + x) % w == x
  {
    var k := y * w + x;
    var q := k / w;
    if q > y { NextRow(y, q, w); } else if q < y { NextRow(q, y, w); }
  }

  /** The row and column of place k. */
  lemma RowOf(k: nat, w: nat, h: nat)
    requires w > 0 && k < h * w
    ensures k / w < h && k % w < w && k == k / w * w + k % w
  {
    if k / w >= h { TimesUpTo(h, k / w, w); }
  }

  /** Places in a row-by-row order of h rows of w stay below h * w. */
  lemma PlaceBound(w: nat, h: nat, y: nat, x: nat)
    requires x < w && y < h
    ensures y * w + x < h * w
  {
    NextRow(y, h, w);
  }

  // ---------------------------------------------------------------- what a mesh is to be

  function Along(i: nat, n: nat): real
    requires n > 0
  {
    i as real / n as real
  }

  function Coordinate(d: real): real { (1.0 - d) * MIN + d * MAX }

  function GridPoint(g: Grid, surface: Surface, v: nat): Vec
    requires g.Ok()
  {
    var fx, fy := Coordinate(Along(v % g.NumDivX(), g.subDivX)), Coordinate(Along(v / g.NumDivX(), g.subDivY));
    Vec(fx * g.scale, fy * g.scale, surface(fx, fy) * g.scale)
  }

  function At(s: seq<real>, i: nat): Vec
    requires 3 * i + 3 <= |s|
  {
    Vec(s[3 * i], s[3 * i + 1], s[3 * i + 2])
  }

  /** The corners of a triangle, in order. */
  datatype Tri = Tri(a: nat, b: nat, c: nat)

  /** Faces 2c and 2c+1 are the two halves of cell c of the grid, the cells counted row by row. */
  function Corners(g: Grid, f: nat): Tri
    requires g.Ok()
  {
    var c := f / 2;
    var p00: nat := c / g.subDivX * g.NumDivX() + c % g.subDivX;
    var p10 := p00 + g.NumDivX();
    if f % 2 == 0 then Tri(p00, p10, p10 + 1) else Tri(p10 + 1, p00 + 1, p00)
  }

  predicate PointRight(points: seq<real>, g: Grid, surface: Surface, v: nat)
    requires g.Ok() && 3 * v + 3 <= |points|
  {
    At(points, v) == GridPoint(g, surface, v)
  }

  predicate TexCoordRight(texCoords: seq<real>, g: Grid, v: nat)
    requires g.Ok() && 2 * v + 2 <= |texCoords|
  {
    texCoords[2 * v] == Along(v % g.NumDivX(), g.subDivX) && texCoords[2 * v + 1] == Along(v / g.NumDivX(), g.subDivY)
  }

  /** The nine numbers of face f: each corner with normal f. */
  predicate FaceRight(faces: seq<int>, g: Grid, f: nat)
    requires g.Ok() && 9 * f + 9 <= |faces|
  {
    var t := Corners(g, f);
    && faces[9 * f] == t.a && faces[9 * f + 1] == f && faces[9 * f + 2] == t.a
    && faces[9 * f + 3] == t.b && faces[9 * f + 4] == f && faces[9 * f + 5] == t.b
    && faces[9 * f + 6] == t.c && faces[9 * f + 7] == f && faces[9 * f + 8] == t.c
  }

  /** Normal f is the normal of face f's corners. */
  predicate NormalRight(normals: seq<real>, points: seq<real>, g: Grid, normal: Normal, f: nat)
    requires g.Ok() && 3 * f + 3 <= |normals|
  {
    var t := Corners(g, f);
    && 3 * t.a + 3 <= |points| && 3 * t.b + 3 <= |points| && 3 * t.c + 3 <= |points|
    && At(normals, f) == normal(At(points, t.a), At(points, t.b), At(points, t.c))
  }

  predicate PointsUpTo(points: seq<real>, g: Grid, surface: Surface, n: nat)
    requires g.Ok() && n <= g.NumVerts() && |points| == 3 * g.NumVerts()
  {
    forall v :: 0 <= v < n ==> PointRight(points, g, surface, v)
  }

  predicate TexCoordsUpTo(texCoords: seq<real>, g: Grid, n: nat)
    requires g.Ok() && n <= g.NumVerts() && |texCoords| == 2 * g.NumVerts()
  {
    forall v :: 0 <= v < n ==> TexCoordRight(texCoords, g, v)
  }

  predicate FacesUpTo(faces: seq<int>, g: Grid, n: nat)
    requires g.Ok() && n <= g.FaceCount() && |faces| == 9 * g.FaceCount()
  {
    forall f :: 0 <= f < n ==> FaceRight(faces, g, f)
  }

  predicate NormalsUpTo(normals: seq<real>, points: seq<real>, g: Grid, normal: Normal, n: nat)
    requires g.Ok() && n <= g.FaceCount() && |normals| == 3 * g.FaceCount()
  {
    forall f :: 0 <= f < n ==> NormalRight(normals, points, g, normal, f)
  }

  predicate Sized(m: Mesh, g: Grid) {
    && |m.points| == 3 * g.NumVerts() && |m.texCoords| == 2 * g.NumVerts()
    && |m.normals| == 3 * g.FaceCount() && |m.faces| == 9 * g.FaceCount()
  }

  /** A mesh of the grid over the surface. */
  predicate IsMesh(m: Mesh, g: Grid, surface: Surface, normal: Normal)
    requires g.Ok()
  {
    && Sized(m, g)
    && PointsUpTo(m.points, g, surface, g.NumVerts()) && TexCoordsUpTo(m.texCoords, g, g.NumVerts())
    && FacesUpTo(m.faces, g, g.FaceCount()) && NormalsUpTo(m.normals, m.points, g, normal, g.FaceCount())
  }

  /** The grid and the surface leave no choice: every number of every array is fixed. */
  lemma MeshIsUnique(m: Mesh, m': Mesh, g: Grid, surface: Surface, normal: Normal)
    requires g.Ok() && IsMesh(m, g, surface, normal) && IsMesh(m', g, surface, normal)
    ensures m == m'
  {
    hide PointsUpTo, TexCoordsUpTo, FacesUpTo, NormalsUpTo;
    SameTriples(m.points, m'.points, g, surface);
    SameTexCoords(m.texCoords, m'.texCoords, g);
    SameFaces(m.faces, m'.faces, g);
    SameNormals(m.normals, m'.normals, m.points, g, normal);
  }

  lemma SameTexCoords(texCoords: seq<real>, texCoords': seq<real>, g: Grid)
    requires g.Ok() && |texCoords| == 2 * g.NumVerts() == |texCoords'|
    requires TexCoordsUpTo(texCoords, g, g.NumVerts()) && TexCoordsUpTo(texCoords', g, g.NumVerts())
    ensures texCoords == texCoords'
  {
    hide Along, Grid.NumVerts;
    forall k | 0 <= k < |texCoords| ensures texCoords[k] == texCoords'[k] {
      assert TexCoordRight(texCoords, g, k / 2) && TexCoordRight(texCoords', g, k / 2);
    }
  }

  lemma SameFaces(faces: seq<int>, faces': seq<int>, g: Grid)
    requires g.Ok() && |faces| == 9 * g.FaceCount() == |faces'|
    requires FacesUpTo(faces, g, g.FaceCount()) && FacesUpTo(faces', g, g.FaceCount())
    ensures faces == faces'
  {
    hide Corners;
    forall k | 0 <= k < |faces| ensures faces[k] == faces'[k] {
      assert FaceRight(faces, g, k / 9) && FaceRight(faces', g, k / 9);
    }
  }

  lemma SameNormals(normals: seq<real>, normals': seq<real>, points: seq<real>, g: Grid, normal: Normal)
    requires g.Ok() && |normals| == 3 * g.FaceCount() == |normals'|
    requires NormalsUpTo(normals, points, g, normal, g.FaceCount()) && NormalsUpTo(normals', points, g, normal, g.FaceCount())
    ensures normals == normals'
  {
    hide Corners;
    forall k | 0 <= k < |normals| ensures normals[k] == normals'[k] {
      assert NormalRight(normals, points, g, normal, k / 3) && NormalRight(normals', points, g, normal, k / 3);
    }
  }

  lemma SameTriples(points: seq<real>, points': seq<real>, g: Grid, surface: Surface)
    requires g.Ok() && |points| == 3 * g.NumVerts() == |points'|
    requires PointsUpTo(points, g, surface, g.NumVerts()) && PointsUpTo(points', g, surface, g.NumVerts())
    ensures points == points'
  {
    hide GridPoint;
    forall k | 0 <= k < |points| ensures points[k] == points'[k] {
      assert PointRight(points, g, surface, k / 3) && PointRight(points', g, surface, k / 3);
    }
  }

  /** All point indices of all faces are indices of points. */
  lemma CornersInRange(g: Grid, f: nat)
    requires g.Ok() && f < g.FaceCount()
    ensures var t := Corners(g, f); t.a < g.NumVerts() && t.b < g.NumVerts() && t.c < g.NumVerts()
  {
    var c := f / 2;
    assert c < g.subDivY * g.subDivX by { assert g.FaceCount() == (g.subDivX * g.subDivY) * 2; }
    RowOf(c, g.subDivX, g.subDivY);
    var y, x := c / g.subDivX, c % g.subDivX;
    PlaceBound(g.NumDivX(), g.subDivY + 1, y + 1, x + 1);
    assert (y + 1) * g.NumDivX() == y * g.NumDivX() + g.NumDivX();
  }

  // ---------------------------------------------------------------- the order of points

  lemma VertAt(g: Grid, y: nat, x: nat)
    requires g.Ok() && y <= g.subDivY && x <= g.subDivX
    ensures g.Vert(y, x) < g.NumVerts() && g.Vert(y, x + 1) == g.Vert(y, x) + 1
    ensures g.Vert(y, x) / g.NumDivX() == y && g.Vert(y, x) % g.NumDivX() == x
  {
    PlaceBound(g.NumDivX(), g.subDivY + 1, y, x);
    RowAndColumn(g.NumDivX(), y, x);
  }

  lemma VertRows(g: Grid, y: nat)
    requires g.Ok()
    ensures g.Vert(0, 0) == 0 && g.Vert(g.subDivY + 1, 0) == g.NumVerts()
    ensures g.Vert(y, g.NumDivX()) == g.Vert(y + 1, 0)
  {
    assert (y + 1) * g.NumDivX() == y * g.NumDivX() + g.NumDivX();
  }

  lemma CellAt(g: Grid, y: nat, x: nat)
    requires g.Ok() && y < g.subDivY && x < g.subDivX
    ensures 2 * g.Cell(y, x) + 1 < g.FaceCount() && g.Cell(y, x + 1) == g.Cell(y, x) + 1
    ensures var p := g.Vert(y, x); var w := g.NumDivX();
      Corners(g, 2 * g.Cell(y, x)) == Tri(p, p + w, p + w + 1) && Corners(g, 2 * g.Cell(y, x) + 1) == Tri(p + w + 1, p + 1, p)
  {
    PlaceBound(g.subDivX, g.subDivY, y, x);
    RowAndColumn(g.subDivX, y, x);
    assert g.FaceCount() == g.subDivY * g.subDivX * 2;
  }

  lemma CellRows(g: Grid, y: nat)
    requires g.Ok()
    ensures g.Cell(0, 0) == 0 && 2 * g.Cell(g.subDivY, 0) == g.FaceCount()
    ensures g.Cell(y, g.subDivX) == g.Cell(y + 1, 0)
  {
    assert (y + 1) * g.subDivX == y * g.subDivX + g.subDivX;
  }

  lemma PointAt(g: Grid, surface: Surface, y: nat, x: nat)
    requires g.Ok() && y <= g.subDivY && x <= g.subDivX
    ensures var fx, fy := Coordinate(Along(x, g.subDivX)), Coordinate(Along(y, g.subDivY));
      GridPoint(g, surface, g.Vert(y, x)) == Vec(fx * g.scale, fy * g.scale, surface(fx, fy) * g.scale)
  {
    hide Grid.Vert, Coordinate, Along;
    VertAt(g, y, x);
  }

  // ---------------------------------------------------------------- the viewer

  class PNTMeshViewer {
    const getSinDivX: (real, real, real) -> real    // of funcValue, x and y
    const computeNormal: Normal
    var funcValue: real
    var triMesh: Mesh

    constructor (getSinDivX: (real, real, real) -> real, computeNormal: Normal, funcValue: real)
      ensures this.getSinDivX == getSinDivX && this.computeNormal == computeNormal && this.funcValue == funcValue
    {
      this.getSinDivX, this.computeNormal, this.funcValue := getSinDivX, computeNormal, funcValue;
      triMesh := Mesh([], [], [], []);
    }

    ghost function CurrentSurface(): Surface
      reads this`funcValue
    {
      var f, value := getSinDivX, funcValue;
      (x, y) => f(value, x, y)
    }

    /** The loops over rows and columns that set the points. */
    method SetPoints(g: Grid, points: array<real>)
      requires g.Ok() && points.Length == 3 * g.NumVerts()
      modifies points
      ensures PointsUpTo(points[..], g, CurrentSurface(), g.NumVerts())
    {
      hide PointsUpTo, GridPoint, Grid.Vert, Grid.NumVerts;
      ghost var surface := CurrentSurface();
      NoneYet(points[..], g, surface);
      VertRows(g, 0);
      var y := 0;
      while y <= g.subDivY
        invariant 0 <= y <= g.subDivY + 1 && g.Vert(y, 0) <= g.NumVerts()
        invariant PointsUpTo(points[..], g, surface, g.Vert(y, 0))
      {
        var dy := Along(y, g.subDivY);
        var fy := Coordinate(dy);
        var x := 0;
        while x <= g.subDivX
          invariant 0 <= x <= g.NumDivX() && g.Vert(y, x) <= g.NumVerts()
          invariant PointsUpTo(points[..], g, surface, g.Vert(y, x))
        {
          VertAt(g, y, x);
          var dx := Along(x, g.subDivX);
          var fx := Coordinate(dx);
          PointAt(g, surface, y, x);
          SetPoint(g, points, surface, g.Vert(y, x), fx * g.scale, fy * g.scale, getSinDivX(funcValue, fx, fy) * g.scale);
          x := x + 1;
        }
        VertRows(g, y);
        y := y + 1;
      }
    }

    method SetPoint(g: Grid, points: array<real>, ghost surface: Surface, v: nat, px: real, py: real, pz: real)
      requires g.Ok() && points.Length == 3 * g.NumVerts() && v < g.NumVerts()
      requires PointsUpTo(points[..], g, surface, v) && Vec(px, py, pz) == GridPoint(g, surface, v)
      modifies points
      ensures PointsUpTo(points[..], g, surface, v + 1)
    {
      hide GridPoint;
      var index := 3 * v;
      ghost var was := points[..];
      points[index] := px;
      points[index + 1] := py;
      points[index + 2] := pz;
      assert points[..] == was[index := px][index + 1 := py][index + 2 := pz];
      forall w: nat | w < v + 1 ensures PointRight(points[..], g, surface, w) {
        assert w < v ==> PointRight(was, g, surface, w);
      }
    }

    method SetTexCoords(g: Grid, texCoords: array<real>)
      requires g.Ok() && texCoords.Length == 2 * g.NumVerts()
      modifies texCoords
      ensures TexCoordsUpTo(texCoords[..], g, g.NumVerts())
    {
      hide TexCoordsUpTo, Grid.Vert, Grid.NumVerts, Along;
      NoTexCoordsYet(texCoords[..], g);
      VertRows(g, 0);
      var y := 0;
      while y <= g.subDivY
        invariant 0 <= y <= g.subDivY + 1 && g.Vert(y, 0) <= g.NumVerts()
        invariant TexCoordsUpTo(texCoords[..], g, g.Vert(y, 0))
      {
        var dy := Along(y, g.subDivY);
        var x := 0;
        while x <= g.subDivX
          invariant 0 <= x <= g.NumDivX() && g.Vert(y, x) <= g.NumVerts()
          invariant TexCoordsUpTo(texCoords[..], g, g.Vert(y, x))
        {
          VertAt(g, y, x);
          var dx := Along(x, g.subDivX);
          SetTexCoord(g, texCoords, g.Vert(y, x), dx, dy);
          x := x + 1;
        }
        VertRows(g, y);
        y := y + 1;
      }
    }

    method SetTexCoord(g: Grid, texCoords: array<real>, v: nat, dx: real, dy: real)
      requires g.Ok() && texCoords.Length == 2 * g.NumVerts() && v < g.NumVerts()
      requires TexCoordsUpTo(texCoords[..], g, v)
      requires dx == Along(v % g.NumDivX(), g.subDivX) && dy == Along(v / g.NumDivX(), g.subDivY)
      modifies texCoords
      ensures TexCoordsUpTo(texCoords[..], g, v + 1)
    {
      hide Along;
      var index := 2 * v;
      ghost var was := texCoords[..];
      texCoords[index] := dx;
      texCoords[index + 1] := dy;
      assert texCoords[..] == was[index := dx][index + 1 := dy];
      forall w: nat | w < v + 1 ensures TexCoordRight(texCoords[..], g, w) {
        assert w < v ==> TexCoordRight(was, g, w);
      }
    }

    /** Sets normal n from three points. */
    method SetNormal(g: Grid, points: array<real>, normals: array<real>, n: nat, t: Tri)
      requires g.Ok() && points.Length == 3 * g.NumVerts() && normals.Length == 3 * g.FaceCount()
      requires points != normals && n < g.FaceCount() && t == Corners(g, n)
      requires NormalsUpTo(normals[..], points[..], g, computeNormal, n)
      modifies normals
      ensures NormalsUpTo(normals[..], points[..], g, computeNormal, n + 1)
    {
      hide Corners, Grid.NumVerts, Grid.FaceCount;
      CornersInRange(g, n);
      var a := Vec(points[3 * t.a], points[3 * t.a + 1], points[3 * t.a + 2]);
      var b := Vec(points[3 * t.b], points[3 * t.b + 1], points[3 * t.b + 2]);
      var c := Vec(points[3 * t.c], points[3 * t.c + 1], points[3 * t.c + 2]);
      var normal := computeNormal(a, b, c);
      var normalIndex := 3 * n;
      ghost var was := normals[..];
      normals[normalIndex] := normal.x;
      normals[normalIndex + 1] := normal.y;
      normals[normalIndex + 2] := normal.z;
      assert normals[..] == was[normalIndex := normal.x][normalIndex + 1 := normal.y][normalIndex + 2 := normal.z];
      assert At(points[..], t.a) == a && At(points[..], t.b) == b && At(points[..], t.c) == c;
      forall w: nat | w < n + 1 ensures NormalRight(normals[..], points[..], g, computeNormal, w) {
        assert w < n ==> NormalRight(was, points[..], g, computeNormal, w);
      }
    }

    /** Writes one face: its corners, each with the normal and a texture coordinate. */
    method SetFace(g: Grid, faces: array<int>, index: nat, normalCount: nat, t: Tri, tc: Tri)
      requires g.Ok() && faces.Length == 9 * g.FaceCount() && normalCount < g.FaceCount() && index == 9 * normalCount
      requires t == tc == Corners(g, normalCount)
      requires FacesUpTo(faces[..], g, normalCount)
      modifies faces
      ensures FacesUpTo(faces[..], g, normalCount + 1)
    {
      hide Corners;
      ghost var was := faces[..];
      faces[index + 0] := t.a;
      faces[index + 1] := normalCount;
      faces[index + 2] := tc.a;
      faces[index + 3] := t.b;
      faces[index + 4] := normalCount;
      faces[index + 5] := tc.b;
      faces[index + 6] := t.c;
      faces[index + 7] := normalCount;
      faces[index + 8] := tc.c;
      forall w: nat | w < normalCount + 1 ensures FaceRight(faces[..], g, w) {
        if w < normalCount {
          assert FaceRight(was, g, w);
          assert forall k :: 9 * w <= k < 9 * w + 9 ==> faces[..][k] == was[k];
        }
      }
    }

    /** `buildTriangleMesh`. */
    method BuildTriangleMesh(g: Grid) returns (m: Mesh)
      requires g.Ok()
      ensures IsMesh(m, g, CurrentSurface(), computeNormal)
    {
      hide Grid.Vert, Grid.NumVerts, PointsUpTo, TexCoordsUpTo, FacesUpTo, NormalsUpTo;
      var points := new real[3 * g.NumVerts()];
      var texCoords := new real[2 * g.NumVerts()];
      var normals := new real[3 * g.FaceCount()];
      var faces := new int[9 * g.FaceCount()];
      SetPoints(g, points);
      SetTexCoords(g, texCoords);
      SetFaces(g, points, normals, faces);
      m := Mesh(points[..], normals[..], texCoords[..], faces[..]);
    }

    /** The loops over the cells, which add two faces each. */
    method SetFaces(g: Grid, points: array<real>, normals: array<real>, faces: array<int>)
      requires g.Ok() && points.Length == 3 * g.NumVerts() && points != normals
      requires normals.Length == 3 * g.FaceCount() && faces.Length == 9 * g.FaceCount()
      modifies normals, faces
      ensures FacesUpTo(faces[..], g, g.FaceCount())
      ensures NormalsUpTo(normals[..], points[..], g, computeNormal, g.FaceCount())
    {
      hide Grid.Vert, Grid.NumVerts, Grid.Cell, Grid.FaceCount, FacesUpTo, NormalsUpTo, Corners;
      NoFacesYet(points[..], normals[..], faces[..], g, computeNormal);
      CellRows(g, 0);
      var normalCount := 0;
      var y := 0;
      while y < g.subDivY
        invariant 0 <= y <= g.subDivY && normalCount == 2 * g.Cell(y, 0) <= g.FaceCount()
        invariant FacesUpTo(faces[..], g, normalCount) && NormalsUpTo(normals[..], points[..], g, computeNormal, normalCount)
      {
        var x := 0;
        while x < g.subDivX
          invariant 0 <= x <= g.subDivX && normalCount == 2 * g.Cell(y, x) <= g.FaceCount()
          invariant FacesUpTo(faces[..], g, normalCount) && NormalsUpTo(normals[..], points[..], g, computeNormal, normalCount)
        {
          CellAt(g, y, x);
          var p00 := g.Vert(y, x);
          var p01 := p00 + 1;
          var p10 := p00 + g.NumDivX();
          var p11 := p10 + 1;
          var tc00 := g.Vert(y, x);
          var tc01 := tc00 + 1;
          var tc10 := tc00 + g.NumDivX();
          var tc11 := tc10 + 1;
          SetNormal(g, points, normals, normalCount, Tri(p00, p10, p11));
          var index := 9 * g.Cell(y, x) * 2;
          SetFace(g, faces, index, normalCount, Tri(p00, p10, p11), Tri(tc00, tc10, tc11));
          normalCount, index := normalCount + 1, index + 9;
          SetNormal(g, points, normals, normalCount, Tri(p11, p01, p00));
          SetFace(g, faces, index, normalCount, Tri(p11, p01, p00), Tri(tc11, tc01, tc00));
          normalCount := normalCount + 1;
          x := x + 1;
        }
        CellRows(g, y);
        y := y + 1;
      }
    }

    /** `computeMesh`: the points anew, then each face's normal from its corners, in the arrays of the mesh. */
    method ComputeMesh(g: Grid)
      requires g.Ok() && Sized(triMesh, g) && FacesUpTo(triMesh.faces, g, g.FaceCount())
      requires TexCoordsUpTo(triMesh.texCoords, g, g.NumVerts())
      modifies this`triMesh
      ensures IsMesh(triMesh, g, CurrentSurface(), computeNormal)
      ensures triMesh.faces == old(triMesh.faces) && triMesh.texCoords == old(triMesh.texCoords)
    {
      hide Grid.NumVerts, Grid.FaceCount, PointsUpTo, TexCoordsUpTo, NormalsUpTo, Corners, FacesUpTo;
      var points := new real[|triMesh.points|](i requires 0 <= i < |triMesh.points| reads this => triMesh.points[i]);
      var normals := new real[|triMesh.normals|](i requires 0 <= i < |triMesh.normals| reads this => triMesh.normals[i]);
      var faces := triMesh.faces;
      SetPoints(g, points);
      triMesh := triMesh.(points := points[..]);
      NoFacesYet(points[..], normals[..], faces, g, computeNormal);
      var index := 0;
      ghost var f: nat := 0;
      while index < |faces|
        modifies normals
        invariant points[..] == triMesh.points && index == 9 * f && f <= g.FaceCount()
        invariant NormalsUpTo(normals[..], points[..], g, computeNormal, f)
      {
        FaceOf(faces, g, f);
        CornersInRange(g, f);
        assert faces[index + 1] == faces[index + 4] && faces[index + 1] == faces[index + 7];
        SetNormal(g, points, normals, faces[index + 1], Tri(faces[index], faces[index + 3], faces[index + 6]));
        index, f := index + 9, f + 1;
      }
      triMesh := triMesh.(normals := normals[..]);
    }

    /** The keys that change the function: the mesh, changed in place, is the one a rebuild would give. */
    method ChangeFunction(g: Grid, key: char)
      requires g.Ok() && IsMesh(triMesh, g, CurrentSurface(), computeNormal) && key in {'[', ']', 'p'}
      modifies this`funcValue, this`triMesh
      ensures funcValue == KeyedValue(old(funcValue), key)
      ensures IsMesh(triMesh, g, CurrentSurface(), computeNormal)
      ensures forall m: Mesh :: IsMesh(m, g, CurrentSurface(), computeNormal) ==> m == triMesh
    {
      hide IsMesh, Sized, FacesUpTo, TexCoordsUpTo;
      Refreshable(triMesh, g, CurrentSurface(), computeNormal);
      if key == '[' {
        funcValue := funcValue - RESOLUTION;
        if funcValue < -20.0 { funcValue := -20.0; }
      } else if key == ']' {
        funcValue := funcValue + RESOLUTION;
        if funcValue > 20.0 { funcValue := 20.0; }
      } else {
        funcValue := -10.0;
      }
      ComputeMesh(g);
      OnlyMesh(triMesh, g, CurrentSurface(), computeNormal);
    }
  }

  lemma Refreshable(m: Mesh, g: Grid, surface: Surface, normal: Normal)
    requires g.Ok() && IsMesh(m, g, surface, normal)
    ensures Sized(m, g) && FacesUpTo(m.faces, g, g.FaceCount()) && TexCoordsUpTo(m.texCoords, g, g.NumVerts())
  {
  }

  lemma OnlyMesh(m: Mesh, g: Grid, surface: Surface, normal: Normal)
    requires g.Ok() && IsMesh(m, g, surface, normal)
    ensures forall m': Mesh :: IsMesh(m', g, surface, normal) ==> m' == m
  {
    hide IsMesh;
    forall m': Mesh | IsMesh(m', g, surface, normal) ensures m' == m { MeshIsUnique(m', m, g, surface, normal); }
  }

  lemma NoneYet(points: seq<real>, g: Grid, surface: Surface)
    requires g.Ok() && |points| == 3 * g.NumVerts()
    ensures PointsUpTo(points, g, surface, 0)
  {
  }

  lemma NoTexCoordsYet(texCoords: seq<real>, g: Grid)
    requires g.Ok() && |texCoords| == 2 * g.NumVerts()
    ensures TexCoordsUpTo(texCoords, g, 0)
  {
  }

  lemma NoFacesYet(points: seq<real>, normals: seq<real>, faces: seq<int>, g: Grid, normal: Normal)
    requires g.Ok() && |normals| == 3 * g.FaceCount() && |faces| == 9 * g.FaceCount()
    ensures FacesUpTo(faces, g, 0) && NormalsUpTo(normals, points, g, normal, 0)
  {
  }

  lemma FaceOf(faces: seq<int>, g: Grid, f: nat)
    requires g.Ok() && f < g.FaceCount() && |faces| == 9 * g.FaceCount() && FacesUpTo(faces, g, g.FaceCount())
    ensures FaceRight(faces, g, f)
  {
  }
}
