/** The triangles of the mesh as a surface: no directed edge twice, inner edges in both directions, and
    vertices - edges + faces = 1. */
module MeshEdges {
  import opened TriangleMesh

  /** Directed edge e of face f, from a corner to the next. */
  function Edge(g: Grid, f: nat, e: nat): (nat, nat)
    requires g.Ok() && e < 3
  {
    var t := Corners(g, f);
    if e == 0 then (t.a, t.b) else if e == 1 then (t.b, t.c) else (t.c, t.a)
  }

  predicate IsEdge(g: Grid, f: nat, e: nat) { f < g.FaceCount() && e < 3 }

  // ---------------------------------------------------------------- cells and their corners

  function Row(g: Grid, c: nat): nat requires g.Ok() { c / g.subDivX }
  function Col(g: Grid, c: nat): nat requires g.Ok() { c % g.subDivX }

  /** The top left corner of cell c. */
  function Start(g: Grid, c: nat): nat
    requires g.Ok()
  {
    g.Vert(Row(g, c), Col(g, c))
  }

  predicate IsCell(g: Grid, c: nat) { 2 * c < g.FaceCount() }

  lemma CellPlace(g: Grid, c: nat)
    requires g.Ok() && IsCell(g, c)
    ensures Row(g, c) < g.subDivY && Col(g, c) < g.subDivX && c == g.Cell(Row(g, c), Col(g, c))
    ensures Start(g, c) / g.NumDivX() == Row(g, c) && Start(g, c) % g.NumDivX() == Col(g, c)
  {
    assert c < g.subDivY * g.subDivX by { assert g.FaceCount() == g.subDivX * g.subDivY * 2; }
    RowOf(c, g.subDivX, g.subDivY);
    RowAndColumn(g.NumDivX(), Row(g, c), Col(g, c));
  }

  lemma CellNumber(g: Grid, y: nat, x: nat)
    requires g.Ok() && y < g.subDivY && x < g.subDivX
    ensures IsCell(g, g.Cell(y, x)) && Row(g, g.Cell(y, x)) == y && Col(g, g.Cell(y, x)) == x
    ensures Start(g, g.Cell(y, x)) == g.Vert(y, x)
  {
    CellAt(g, y, x);
    RowAndColumn(g.subDivX, y, x);
  }

  /** The next cell of the row and the cell below. */
  lemma Neighbors(g: Grid, c: nat)
    requires g.Ok() && IsCell(g, c)
    ensures Col(g, c) + 1 < g.subDivX ==> IsCell(g, c + 1) && Start(g, c + 1) == Start(g, c) + 1
    ensures Col(g, c) > 0 ==> c > 0 && IsCell(g, c - 1) && Start(g, c - 1) + 1 == Start(g, c)
    ensures Row(g, c) + 1 < g.subDivY ==> IsCell(g, c + g.subDivX) && Start(g, c + g.subDivX) == Start(g, c) + g.NumDivX()
    ensures Row(g, c) > 0 ==> c >= g.subDivX && IsCell(g, c - g.subDivX) && Start(g, c - g.subDivX) + g.NumDivX() == Start(g, c)
  {
    CellPlace(g, c);
    var y, x := Row(g, c), Col(g, c);
    if x + 1 < g.subDivX { CellNumber(g, y, x + 1); }
    if x > 0 { CellNumber(g, y, x - 1); }
    if y + 1 < g.subDivY {
      CellNumber(g, y + 1, x);
      NextRowIs(g, y, x);
    }
    if y > 0 {
      CellNumber(g, y - 1, x);
      NextRowIs(g, y - 1, x);
    }
  }

  lemma NextRowIs(g: Grid, y: nat, x: nat)
    ensures g.Vert(y + 1, x) == g.Vert(y, x) + g.NumDivX() && g.Cell(y + 1, x) == g.Cell(y, x) + g.subDivX
  {
    assert (y + 1) * g.NumDivX() == y * g.NumDivX() + g.NumDivX();
    assert (y + 1) * g.subDivX == y * g.subDivX + g.subDivX;
  }

  lemma SameStart(g: Grid, c: nat, c': nat)
    requires g.Ok() && IsCell(g, c) && IsCell(g, c') && Start(g, c) == Start(g, c')
    ensures c == c'
  {
    CellPlace(g, c);
    CellPlace(g, c');
  }

  /** The six edges of a cell. */
  lemma EdgesOfCell(g: Grid, c: nat)
    requires g.Ok()
    ensures var p, w := Start(g, c), g.NumDivX();
      && Edge(g, 2 * c, 0) == (p, p + w) && Edge(g, 2 * c, 1) == (p + w, p + w + 1) && Edge(g, 2 * c, 2) == (p + w + 1, p)
      && Edge(g, 2 * c + 1, 0) == (p + w + 1, p + 1) && Edge(g, 2 * c + 1, 1) == (p + 1, p)
      && Edge(g, 2 * c + 1, 2) == (p, p + w + 1)
  {
    assert (2 * c) / 2 == c && (2 * c + 1) / 2 == c && (2 * c) % 2 == 0 && (2 * c + 1) % 2 == 1;
  }

  lemma EdgeByParity(g: Grid, f: nat, e: nat)
    requires g.Ok() && IsEdge(g, f, e)
    ensures IsCell(g, f / 2)
    ensures var p, w := Start(g, f / 2), g.NumDivX();
      Edge(g, f, e) == (
        if f % 2 == 0 then (if e == 0 then (p, p + w) else if e == 1 then (p + w, p + w + 1) else (p + w + 1, p))
        else (if e == 0 then (p + w + 1, p + 1) else if e == 1 then (p + 1, p) else (p, p + w + 1)))
  {
    hide Start, Edge;
    EdgesOfCell(g, f / 2);
    assert f == 2 * (f / 2) + f % 2;
  }

  // ---------------------------------------------------------------- directed edges

  /** No directed edge belongs to two faces, or twice to one. */
  lemma NoEdgeTwice(g: Grid, f: nat, e: nat, f': nat, e': nat)
    requires g.Ok() && IsEdge(g, f, e) && IsEdge(g, f', e') && Edge(g, f, e) == Edge(g, f', e')
    ensures f == f' && e == e'
  {
    hide Start, Edge;
    EdgeByParity(g, f, e);
    EdgeByParity(g, f', e');
    assert f % 2 == f' % 2 && e == e';
    SameStart(g, f / 2, f' / 2);
  }

  /** The edge lies on the border of the grid. */
  predicate OnBorder(g: Grid, f: nat, e: nat)
    requires g.Ok()
  {
    var c := f / 2;
    if f % 2 == 0
    then (e == 0 && Col(g, c) == 0) || (e == 1 && Row(g, c) + 1 == g.subDivY)
    else (e == 0 && Col(g, c) + 1 == g.subDivX) || (e == 1 && Row(g, c) == 0)
  }

  /** The cell on the other side of an inner edge. */
  function CellAcross(g: Grid, f: nat, e: nat): (d: nat)
    requires g.Ok() && IsEdge(g, f, e) && !OnBorder(g, f, e)
    ensures IsCell(g, d)
    ensures var p, q, w := Start(g, f / 2), Start(g, d), g.NumDivX();
      if e == 2 then q == p
      else if f % 2 == 0 then (if e == 0 then q + 1 == p else q == p + w)
      else (if e == 0 then q == p + 1 else q + w == p)
  {
    hide Start, Row, Col;
    var c := f / 2;
    CellPlace(g, c);
    Neighbors(g, c);
    if e == 2 then c
    else if f % 2 == 0 then (if e == 0 then c - 1 else c + g.subDivX)
    else (if e == 0 then c + 1 else c - g.subDivX)
  }

  /** The face on the other side: of the other half. */
  function Across(g: Grid, f: nat, e: nat): nat
    requires g.Ok() && IsEdge(g, f, e) && !OnBorder(g, f, e)
  {
    2 * CellAcross(g, f, e) + (1 - f % 2)
  }

  function Reversed(e: (nat, nat)): (nat, nat) { (e.1, e.0) }

  lemma AcrossIsReversed(g: Grid, f: nat, e: nat)
    requires g.Ok() && IsEdge(g, f, e) && !OnBorder(g, f, e)
    ensures IsEdge(g, Across(g, f, e), e) && Edge(g, Across(g, f, e), e) == Reversed(Edge(g, f, e))
  {
    hide Start, Edge, Row, Col, CellAcross, OnBorder;
    var d, o := CellAcross(g, f, e), Across(g, f, e);
    EdgeByParity(g, f, e);
    assert o / 2 == d && o % 2 == 1 - f % 2;
    EvenFaces(g, d, o);
    EdgeByParity(g, o, e);
  }

  lemma EvenFaces(g: Grid, c: nat, f: nat)
    requires IsCell(g, c) && f <= 2 * c + 1
    ensures f < g.FaceCount()
  {
    assert g.FaceCount() / 2 * 2 == g.FaceCount();
  }

  /** An edge is there in both directions exactly if it is not on the border. */
  lemma ReversedIff(g: Grid, f: nat, e: nat)
    requires g.Ok() && IsEdge(g, f, e)
    ensures (exists f', e' :: IsEdge(g, f', e') && Edge(g, f', e') == Reversed(Edge(g, f, e))) <==> !OnBorder(g, f, e)
  {
    if !OnBorder(g, f, e) {
      AcrossIsReversed(g, f, e);
    } else {
      forall f': nat, e': nat | IsEdge(g, f', e')
        ensures Edge(g, f', e') != Reversed(Edge(g, f, e))
      {
        BorderOneWay(g, f, e, f', e');
      }
    }
  }

  /** One step right and one step down from a cell's first corner. */
  lemma StepPlaces(g: Grid, c: nat)
    requires g.Ok() && IsCell(g, c)
    ensures var p, w := Start(g, c), g.NumDivX();
      && Row(g, c) < g.subDivY && Col(g, c) < g.subDivX
      && p / w == Row(g, c) && p % w == Col(g, c) && (p + 1) % w == Col(g, c) + 1 && (p + w) / w == Row(g, c) + 1
  {
    CellPlace(g, c);
    var y, x := Row(g, c), Col(g, c);
    RowAndColumn(g.NumDivX(), y, x + 1);
    RowAndColumn(g.NumDivX(), y + 1, x);
    NextRowIs(g, y, x);
  }

  lemma BorderOneWay(g: Grid, f: nat, e: nat, f': nat, e': nat)
    requires g.Ok() && IsEdge(g, f, e) && OnBorder(g, f, e) && IsEdge(g, f', e')
    ensures Edge(g, f', e') != Reversed(Edge(g, f, e))
  {
    hide Start, Edge, Row, Col;
    EdgeByParity(g, f, e);
    EdgeByParity(g, f', e');
    StepPlaces(g, f / 2);
    StepPlaces(g, f' / 2);
  }

  // ---------------------------------------------------------------- counting edges

  /** The edge without its direction. */
  function Line(e: (nat, nat)): (nat, nat) { if e.0 <= e.1 then e else (e.1, e.0) }

  ghost function Lines(g: Grid): set<(nat, nat)>
    requires g.Ok()
  {
    set f: nat, e: nat | f < g.FaceCount() && e < 3 :: Line(Edge(g, f, e))
  }

  /** The lines one by one: the three of each cell's first face, the right border, the top border. */
  function LineNo(g: Grid, k: nat): (nat, nat)
    requires g.Ok()
  {
    var n := g.FaceCount() / 2 * 3;
    if k < n then Line(Edge(g, 2 * (k / 3), k % 3))
    else if k < n + g.subDivY then (g.Vert(k - n, g.subDivX), g.Vert(k - n, g.subDivX) + g.NumDivX())
    else (k - n - g.subDivY, k - n - g.subDivY + 1)
  }

  function LineCount(g: Grid): nat { g.FaceCount() / 2 * 3 + g.subDivY + g.subDivX }

  ghost function Image<T>(f: nat -> T, n: nat): set<T> { set k: nat | k < n :: f(k) }

  lemma {:induction false} ImageSize<T>(f: nat -> T, n: nat)
    requires forall i: nat, j: nat :: i < j < n ==> f(i) != f(j)
    ensures |Image(f, n)| == n
  {
    if n > 0 {
      ImageSize(f, n - 1);
      assert Image(f, n) == Image(f, n - 1) + {f(n - 1)};
    }
  }

  lemma LineByNumber(g: Grid, k: nat)
    requires g.Ok() && k < g.FaceCount() / 2 * 3
    ensures IsCell(g, k / 3)
    ensures var p, w := Start(g, k / 3), g.NumDivX();
      LineNo(g, k) == (if k % 3 == 0 then (p, p + w) else if k % 3 == 1 then (p + w, p + w + 1) else (p, p + w + 1))
  {
    hide Start, Edge;
    EdgesOfCell(g, k / 3);
  }

  /** Where a line lies: which way it goes, and the row and column it starts in. */
  lemma LinePlace(g: Grid, k: nat)
    requires g.Ok() && k < LineCount(g)
    ensures var l, w, n := LineNo(g, k), g.NumDivX(), g.FaceCount() / 2 * 3;
      if k < n then
        && IsCell(g, k / 3)
        && l.1 - l.0 == (if k % 3 == 0 then w else if k % 3 == 1 then 1 else w + 1)
        && l.0 == Start(g, k / 3) + (if k % 3 == 1 then w else 0)
        && l.0 % w < g.subDivX && (k % 3 == 1 ==> l.0 / w >= 1)
      else if k < n + g.subDivY then l.1 - l.0 == w && l.0 % w == g.subDivX && l.0 / w == k - n
      else l.1 - l.0 == 1 && l.0 == k - n - g.subDivY && l.0 / w == 0
  {
    hide Start, Edge, Row, Col, Grid.FaceCount, Grid.Vert;
    var n, w := g.FaceCount() / 2 * 3, g.NumDivX();
    if k < n {
      LineByNumber(g, k);
      StepPlaces(g, k / 3);
      DownColumn(g, k / 3);
    } else if k < n + g.subDivY {
      BorderColumn(g, k - n);
    } else {
      FirstRow(k - n - g.subDivY, w);
    }
  }

  lemma BorderColumn(g: Grid, y: nat)
    requires g.Ok()
    ensures g.Vert(y, g.subDivX) % g.NumDivX() == g.subDivX && g.Vert(y, g.subDivX) / g.NumDivX() == y
  {
    RowAndColumn(g.NumDivX(), y, g.subDivX);
  }

  lemma FirstRow(x: nat, w: nat)
    requires x < w
    ensures x / w == 0
  {
  }

  lemma DownColumn(g: Grid, c: nat)
    requires g.Ok() && IsCell(g, c)
    ensures (Start(g, c) + g.NumDivX()) % g.NumDivX() == Col(g, c)
  {
    CellPlace(g, c);
    NextRowIs(g, Row(g, c), Col(g, c));
    RowAndColumn(g.NumDivX(), Row(g, c) + 1, Col(g, c));
  }

  lemma LinesDiffer(g: Grid, i: nat, j: nat)
    requires g.Ok() && i < j < LineCount(g)
    ensures LineNo(g, i) != LineNo(g, j)
  {
    hide Start, LineNo;
    LinePlace(g, i);
    LinePlace(g, j);
    if LineNo(g, i) == LineNo(g, j) && j < g.FaceCount() / 2 * 3 {
      SameStart(g, i / 3, j / 3);
    }
  }

  /** The cell's own lines: left, below, across. */
  lemma OwnLine(g: Grid, c: nat, e: nat)
    requires g.Ok() && IsCell(g, c) && e < 3
    ensures 3 * c + e < g.FaceCount() / 2 * 3
    ensures var p, w := Start(g, c), g.NumDivX();
      LineNo(g, 3 * c + e) == (if e == 0 then (p, p + w) else if e == 1 then (p + w, p + w + 1) else (p, p + w + 1))
  {
    hide Start, LineNo;
    assert g.FaceCount() / 2 * 2 == g.FaceCount();
    LineByNumber(g, 3 * c + e);
  }

  /** The line on the right is the next cell's, or on the border. */
  lemma RightLine(g: Grid, c: nat) returns (k: nat)
    requires g.Ok() && IsCell(g, c)
    ensures k < LineCount(g) && LineNo(g, k) == (Start(g, c) + 1, Start(g, c) + 1 + g.NumDivX())
  {
    hide Start, Edge, Row, Col, Grid.Vert, Grid.FaceCount;
    CellPlace(g, c);
    if Col(g, c) + 1 < g.subDivX {
      Neighbors(g, c);
      OwnLine(g, c + 1, 0);
      k := 3 * (c + 1);
    } else {
      LastColumn(g, c);
      k := g.FaceCount() / 2 * 3 + Row(g, c);
    }
  }

  /** The line on top is that of the cell above, or on the border. */
  lemma TopLine(g: Grid, c: nat) returns (k: nat)
    requires g.Ok() && IsCell(g, c)
    ensures k < LineCount(g) && LineNo(g, k) == (Start(g, c), Start(g, c) + 1)
  {
    hide Start, Edge, Row, Col, Grid.Vert, Grid.FaceCount;
    CellPlace(g, c);
    if Row(g, c) > 0 {
      Neighbors(g, c);
      OwnLine(g, c - g.subDivX, 1);
      k := 3 * (c - g.subDivX) + 1;
    } else {
      TopRow(g, c);
      k := g.FaceCount() / 2 * 3 + g.subDivY + Col(g, c);
    }
  }

  /** Every line of a face is one of those counted. */
  lemma LineHasNumber(g: Grid, f: nat, e: nat) returns (k: nat)
    requires g.Ok() && IsEdge(g, f, e)
    ensures k < LineCount(g) && LineNo(g, k) == Line(Edge(g, f, e))
  {
    hide Start, Edge, LineNo, Grid.FaceCount;
    EdgeByParity(g, f, e);
    if f % 2 == 0 || e == 2 {
      OwnLine(g, f / 2, e);
      k := 3 * (f / 2) + e;
    } else if e == 0 {
      k := RightLine(g, f / 2);
    } else {
      k := TopLine(g, f / 2);
    }
  }

  lemma LastColumn(g: Grid, c: nat)
    requires g.Ok() && Col(g, c) + 1 == g.subDivX
    ensures g.Vert(Row(g, c), g.subDivX) == Start(g, c) + 1
  {
  }

  lemma TopRow(g: Grid, c: nat)
    requires g.Ok() && Row(g, c) == 0
    ensures Start(g, c) == Col(g, c)
  {
  }

  /** Every line counted belongs to a face. */
  lemma NumberHasLine(g: Grid, k: nat) returns (f: nat, e: nat)
    requires g.Ok() && k < LineCount(g)
    ensures IsEdge(g, f, e) && LineNo(g, k) == Line(Edge(g, f, e))
  {
    hide Start, Edge, Row, Col, Grid.Vert;
    var n := g.FaceCount() / 2 * 3;
    if k < n {
      f, e := 2 * (k / 3), k % 3;
    } else if k < n + g.subDivY {
      var c := g.Cell(k - n, g.subDivX - 1);
      CellNumber(g, k - n, g.subDivX - 1);
      f, e := 2 * c + 1, 0;
      EdgesOfCell(g, c);
      LastColumn(g, c);
    } else {
      var c := g.Cell(0, k - n - g.subDivY);
      CellNumber(g, 0, k - n - g.subDivY);
      f, e := 2 * c + 1, 1;
      EdgesOfCell(g, c);
      TopRow(g, c);
    }
  }

  lemma LinesAreNumbered(g: Grid)
    requires g.Ok()
    ensures Lines(g) == Image((k: nat) => LineNo(g, k), LineCount(g))
  {
    hide LineNo, Edge, LineCount;
    var no := (k: nat) => LineNo(g, k);
    forall l | l in Lines(g) ensures l in Image(no, LineCount(g)) {
      var f: nat, e: nat :| f < g.FaceCount() && e < 3 && l == Line(Edge(g, f, e));
      var k := LineHasNumber(g, f, e);
      assert no(k) == l;
    }
    forall l | l in Image(no, LineCount(g)) ensures l in Lines(g) {
      var k: nat :| k < LineCount(g) && l == no(k);
      var f, e := NumberHasLine(g, k);
      assert l == Line(Edge(g, f, e));
    }
  }

  /** Euler's formula for a disk. */
  lemma VerticesEdgesFaces(g: Grid)
    requires g.Ok()
    ensures g.NumVerts() - |Lines(g)| + g.FaceCount() == 1
  {
    hide LineNo, Lines, Image;
    LinesAreNumbered(g);
    forall i: nat, j: nat | i < j < LineCount(g) ensures LineNo(g, i) != LineNo(g, j) { LinesDiffer(g, i, j); }
    ImageSize((k: nat) => LineNo(g, k), LineCount(g));
    assert (g.subDivY + 1) * (g.subDivX + 1) == g.subDivX * g.subDivY + g.subDivX + g.subDivY + 1;
  }
}
