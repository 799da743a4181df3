/** Where the points of a mesh lie: in equal steps over a square, from corner to corner, with faces of one
    orientation and of equal size. */
module MeshGeometry {
  import opened TriangleMesh

  lemma Halves(i: real, n: real)
    requires n != 0.0
    ensures (i + 1.0) / n == i / n + 1.0 / n
  {
  }

  lemma Whole(n: real)
    requires n != 0.0
    ensures n / n == 1.0 && 0.0 / n == 0.0
  {
  }

  lemma CoordinateIs(i: nat, n: nat)
    requires n > 0
    ensures Coordinate(Along(i, n)) == 20.0 * (i as real / n as real) - 10.0
  {
  }

  /** Point x of row y: equal steps along both axes, and the surface above. */
  lemma PointLies(m: Mesh, g: Grid, surface: Surface, normal: Normal, y: nat, x: nat)
    requires g.Ok() && IsMesh(m, g, surface, normal) && y <= g.subDivY && x <= g.subDivX
    ensures var v := y * (g.subDivX + 1) + x;
      var px, py := 20.0 * (x as real / g.subDivX as real) - 10.0, 20.0 * (y as real / g.subDivY as real) - 10.0;
      && 3 * v + 3 <= |m.points|
      && m.points[3 * v] == px * g.scale && m.points[3 * v + 1] == py * g.scale
      && m.points[3 * v + 2] == surface(px, py) * g.scale
  {
    hide GridPoint, Along, Coordinate, FacesUpTo, TexCoordsUpTo, NormalsUpTo;
    VertAt(g, y, x);
    PointAt(g, surface, y, x);
    CoordinateIs(x, g.subDivX);
    CoordinateIs(y, g.subDivY);
    assert PointRight(m.points, g, surface, g.Vert(y, x));
  }

  /** The texture coordinates run from 0 to 1 in the same steps. */
  lemma TexCoordLies(m: Mesh, g: Grid, surface: Surface, normal: Normal, y: nat, x: nat)
    requires g.Ok() && IsMesh(m, g, surface, normal) && y <= g.subDivY && x <= g.subDivX
    ensures var v := y * (g.subDivX + 1) + x;
      && 2 * v + 2 <= |m.texCoords|
      && m.texCoords[2 * v] == x as real / g.subDivX as real && m.texCoords[2 * v + 1] == y as real / g.subDivY as real
  {
    hide PointsUpTo, FacesUpTo, NormalsUpTo;
    VertAt(g, y, x);
    assert TexCoordRight(m.texCoords, g, g.Vert(y, x));
  }

  /** The first point and the last are opposite corners of the square from -10 to 10 in each direction, scaled. */
  lemma CornerPoints(m: Mesh, g: Grid, surface: Surface, normal: Normal)
    requires g.Ok() && IsMesh(m, g, surface, normal)
    ensures var n := |m.points|;
      && n >= 6 && m.points[0] == m.points[1] == -10.0 * g.scale
      && m.points[n - 3] == m.points[n - 2] == 10.0 * g.scale
  {
    hide IsMesh;
    PointLies(m, g, surface, normal, 0, 0);
    PointLies(m, g, surface, normal, g.subDivY, g.subDivX);
    LastPoint(m, g, surface, normal);
    Whole(g.subDivX as real);
    Whole(g.subDivY as real);
  }

  lemma LastPoint(m: Mesh, g: Grid, surface: Surface, normal: Normal)
    requires g.Ok() && IsMesh(m, g, surface, normal)
    ensures |m.points| == 3 * (g.subDivY * (g.subDivX + 1) + g.subDivX) + 3
  {
    hide PointsUpTo, FacesUpTo, TexCoordsUpTo, NormalsUpTo;
    assert g.NumVerts() == g.subDivY * (g.subDivX + 1) + (g.subDivX + 1);
  }

  /** Twice the area of a triangle in the plane of the grid; negative when its corners run clockwise, with y up. */
  function Area2(a: Vec, b: Vec, c: Vec): real { (b.x - a.x) * (c.y - a.y) - (b.y - a.y) * (c.x - a.x) }

  /** Corner k of face f, by the point index in the face array. */
  function Corner(m: Mesh, f: nat, k: nat): Vec
    requires k < 3 && 9 * f + 9 <= |m.faces| && 0 <= m.faces[9 * f + 3 * k] && 3 * m.faces[9 * f + 3 * k] + 3 <= |m.points|
  {
    At(m.points, m.faces[9 * f + 3 * k])
  }

  predicate InPoints(m: Mesh, f: nat) {
    && 9 * f + 9 <= |m.faces|
    && forall k :: 0 <= k < 3 ==> 0 <= m.faces[9 * f + 3 * k] && 3 * m.faces[9 * f + 3 * k] + 3 <= |m.points|
  }

  lemma AreaOfHalves(x: real, y: real, dx: real, dy: real, z: seq<real>)
    requires |z| == 4
    ensures var p00, p01 := Vec(x, y, z[0]), Vec(x + dx, y, z[1]);
      var p10, p11 := Vec(x, y + dy, z[2]), Vec(x + dx, y + dy, z[3]);
      Area2(p00, p10, p11) == -(dx * dy) && Area2(p11, p01, p00) == -(dx * dy)
  {
    assert 0.0 * dy - dy * dx == -(dx * dy);
    assert 0.0 * (0.0 - dy) - (0.0 - dy) * (0.0 - dx) == -(dx * dy);
    var p00, p01 := Vec(x, y, z[0]), Vec(x + dx, y, z[1]);
    var p10, p11 := Vec(x, y + dy, z[2]), Vec(x + dx, y + dy, z[3]);
    assert p10.x - p00.x == 0.0 && p11.y - p00.y == dy && p10.y - p00.y == dy && p11.x - p00.x == dx;
    assert p01.x - p11.x == 0.0 && p00.y - p11.y == 0.0 - dy && p01.y - p11.y == 0.0 - dy && p00.x - p11.x == 0.0 - dx;
  }

  function StepX(g: Grid): real
    requires g.Ok()
  {
    20.0 * g.scale / g.subDivX as real
  }

  function StepY(g: Grid): real
    requires g.Ok()
  {
    20.0 * g.scale / g.subDivY as real
  }

  /** The steps between neighbors. */
  lemma Steps(scale: real, i: nat, n: nat)
    requires n > 0
    ensures (20.0 * ((i + 1) as real / n as real) - 10.0) * scale
         == (20.0 * (i as real / n as real) - 10.0) * scale + 20.0 * scale / n as real
  {
    Halves(i as real, n as real);
    var a, d := i as real / n as real, 1.0 / n as real;
    assert (20.0 * (a + d) - 10.0) * scale == (20.0 * a - 10.0) * scale + 20.0 * d * scale;
    assert 20.0 * d * scale == 20.0 * scale * d == 20.0 * scale / n as real;
  }

  lemma NextPoint(m: Mesh, g: Grid, surface: Surface, normal: Normal, y: nat, x: nat)
    requires g.Ok() && IsMesh(m, g, surface, normal) && y <= g.subDivY && x < g.subDivX
    ensures var v := y * (g.subDivX + 1) + x;
      && 3 * (v + 1) + 3 <= |m.points|
      && At(m.points, v + 1).x == At(m.points, v).x + StepX(g) && At(m.points, v + 1).y == At(m.points, v).y
  {
    hide IsMesh;
    PointLies(m, g, surface, normal, y, x);
    PointLies(m, g, surface, normal, y, x + 1);
    Steps(g.scale, x, g.subDivX);
  }

  lemma NextRowPoint(m: Mesh, g: Grid, surface: Surface, normal: Normal, y: nat, x: nat)
    requires g.Ok() && IsMesh(m, g, surface, normal) && y < g.subDivY && x <= g.subDivX
    ensures var v := y * (g.subDivX + 1) + x; var u := v + g.subDivX + 1;
      && 3 * u + 3 <= |m.points|
      && At(m.points, u).x == At(m.points, v).x && At(m.points, u).y == At(m.points, v).y + StepY(g)
  {
    hide IsMesh;
    assert (y + 1) * (g.subDivX + 1) == y * (g.subDivX + 1) + (g.subDivX + 1);
    PointLies(m, g, surface, normal, y, x);
    PointLies(m, g, surface, normal, y + 1, x);
    Steps(g.scale, y, g.subDivY);
  }

  /** The two halves of a cell. */
  lemma CellAreas(m: Mesh, g: Grid, surface: Surface, normal: Normal, y: nat, x: nat)
    requires g.Ok() && IsMesh(m, g, surface, normal) && y < g.subDivY && x < g.subDivX
    ensures var w := g.subDivX + 1; var v := y * w + x;
      && 3 * (v + w + 1) + 3 <= |m.points|
      && Area2(At(m.points, v), At(m.points, v + w), At(m.points, v + w + 1)) == -(StepX(g) * StepY(g))
      && Area2(At(m.points, v + w + 1), At(m.points, v + 1), At(m.points, v)) == -(StepX(g) * StepY(g))
  {
    hide IsMesh, Area2, StepX, StepY, At;
    var w := g.subDivX + 1;
    var v := y * w + x;
    NextPoint(m, g, surface, normal, y, x);
    NextPoint(m, g, surface, normal, y + 1, x);
    NextRowPoint(m, g, surface, normal, y, x);
    assert (y + 1) * w + x == v + w by { assert (y + 1) * w == y * w + w; }
    var p00, p01, p10, p11 := At(m.points, v), At(m.points, v + 1), At(m.points, v + w), At(m.points, v + w + 1);
    AreaOfHalves(p00.x, p00.y, StepX(g), StepY(g), [p00.z, p01.z, p10.z, p11.z]);
  }

  /** Every face runs clockwise, with x to the right and y up, and covers half a cell, whatever the surface. */
  lemma FaceCoversHalfACell(m: Mesh, g: Grid, surface: Surface, normal: Normal, f: nat)
    requires g.Ok() && IsMesh(m, g, surface, normal) && f < 2 * (g.subDivX * g.subDivY)
    ensures InPoints(m, f)
    ensures Area2(Corner(m, f, 0), Corner(m, f, 1), Corner(m, f, 2)) == -(StepX(g) * StepY(g))
  {
    hide IsMesh, Area2, StepX, StepY, Corners, At;
    var c := f / 2;
    RowOf(c, g.subDivX, g.subDivY);
    var y, x := c / g.subDivX, c % g.subDivX;
    CellAt(g, y, x);
    FaceCorners(m, g, surface, normal, f);
    CellAreas(m, g, surface, normal, y, x);
    assert f == 2 * g.Cell(y, x) || f == 2 * g.Cell(y, x) + 1;
  }

  lemma FaceCorners(m: Mesh, g: Grid, surface: Surface, normal: Normal, f: nat)
    requires g.Ok() && IsMesh(m, g, surface, normal) && f < g.FaceCount()
    ensures var t := Corners(g, f);
      9 * f + 9 <= |m.faces| && m.faces[9 * f] == t.a && m.faces[9 * f + 3] == t.b && m.faces[9 * f + 6] == t.c
    ensures |m.points| == 3 * g.NumVerts()
  {
    hide Corners, PointsUpTo, TexCoordsUpTo, NormalsUpTo;
    assert FaceRight(m.faces, g, f);
  }
}
