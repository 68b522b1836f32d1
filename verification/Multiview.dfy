/**
 The panes of a multiview (hosts/win32/Session.cs:141-151,174-291).

 Coordinates are reals, fractions of the frame. A pane covers the points from its corner up to, and
 without, its right and lower edges.
 */
module Multiview {
  import opened Arithmetic

  datatype Pane = Pane(x: real, y: real, width: real, height: real) {
    predicate Covers(u: real, v: real) {
      x <= u < x + width && y <= v < y + height
    }
  }

  datatype Template =
    | PreviewProgram8 | PreviewProgram8Bottom | PreviewProgram8Left | PreviewProgram8Right | PreviewProgram2
    | Quad4TopLeft | Quad4TopRight | Quad4BottomLeft | Quad4BottomRight
    | Large5TopLeft | Large5TopRight | Large5BottomLeft | Large5BottomRight
    | Grid2x2 | Grid3x3 | Grid4x4

  const FRAME: Pane := Pane(0.0, 0.0, 1.0, 1.0)

  function One(b: bool): nat {
    if b then 1 else 0
  }

  /** How many panes cover a point. */
  function Cover(panes: seq<Pane>, u: real, v: real): nat {
    if |panes| == 0 then 0 else Cover(panes[..|panes| - 1], u, v) + One(panes[|panes| - 1].Covers(u, v))
  }

  /** Every point of `area` lies in exactly one pane, and no pane reaches outside it. */
  ghost predicate Tiles(panes: seq<Pane>, area: Pane) {
    forall u: real, v: real :: Cover(panes, u, v) == One(area.Covers(u, v))
  }

  lemma CoverPush(panes: seq<Pane>, p: Pane, u: real, v: real)
    ensures Cover(panes + [p], u, v) == Cover(panes, u, v) + One(p.Covers(u, v))
  {
    assert (panes + [p])[..|panes|] == panes;
  }

  lemma {:induction false} CoverAppend(a: seq<Pane>, b: seq<Pane>, u: real, v: real)
    ensures Cover(a + b, u, v) == Cover(a, u, v) + Cover(b, u, v)
    decreases |b|
  {
    if |b| == 0 {
      assert a + b == a;
    } else {
      var n := |b| - 1;
      CoverAppend(a, b[..n], u, v);
      CoverPush(a + b[..n], b[n], u, v);
      AppendLast(a, b);
    }
  }

  lemma AppendLast(a: seq<Pane>, b: seq<Pane>)
    requires |b| != 0
    ensures a + b == a + b[..|b| - 1] + [b[|b| - 1]]
  {
  }

  /** The `k`-th pane covers the point and no other pane does. */
  ghost predicate OnlyPane(panes: seq<Pane>, k: nat, u: real, v: real)
    requires k < |panes|
  {
    panes[k].Covers(u, v) && forall j :: 0 <= j < |panes| && panes[j].Covers(u, v) ==> j == k
  }

  lemma {:induction false} CoveredNever(panes: seq<Pane>, u: real, v: real)
    ensures Cover(panes, u, v) == 0 <==> forall k :: 0 <= k < |panes| ==> !panes[k].Covers(u, v)
  {
    if |panes| != 0 {
      var n := |panes| - 1;
      CoveredNever(panes[..n], u, v);
      assert forall j :: 0 <= j < n ==> panes[..n][j] == panes[j];
    }
  }

  lemma {:induction false} CoveredOnce(panes: seq<Pane>, u: real, v: real)
    requires Cover(panes, u, v) == 1
    ensures exists k :: 0 <= k < |panes| && OnlyPane(panes, k, u, v)
  {
    var n := |panes| - 1;
    if panes[n].Covers(u, v) {
      CoveredNever(panes[..n], u, v);
      assert forall j :: 0 <= j < n ==> panes[..n][j] == panes[j];
      assert OnlyPane(panes, n, u, v);
    } else {
      CoveredOnce(panes[..n], u, v);
      var k :| 0 <= k < n && OnlyPane(panes[..n], k, u, v);
      OnlyPaneStays(panes, k, u, v);
    }
  }

  lemma OnlyPaneStays(panes: seq<Pane>, k: nat, u: real, v: real)
    requires k < |panes| - 1 && !panes[|panes| - 1].Covers(u, v) && OnlyPane(panes[..|panes| - 1], k, u, v)
    ensures OnlyPane(panes, k, u, v)
  {
    assert forall j :: 0 <= j < |panes| - 1 ==> panes[..|panes| - 1][j] == panes[j];
  }

  /** In pane terms: the point's pane exists and is unique. */
  lemma TilesMeansOnePane(panes: seq<Pane>, area: Pane, u: real, v: real)
    requires Tiles(panes, area)
    ensures area.Covers(u, v) ==> exists k :: 0 <= k < |panes| && OnlyPane(panes, k, u, v)
    ensures !area.Covers(u, v) ==> forall k :: 0 <= k < |panes| ==> !panes[k].Covers(u, v)
  {
    CoveredNever(panes, u, v);
    if area.Covers(u, v) {
      CoveredOnce(panes, u, v);
    }
  }

  // ----- grids -----

  /** The `i`-th of `n` dividing lines of an interval. */
  function Line(start: real, length: real, i: nat, n: nat): real
    requires 0 < n
  {
    start + length * i as real / n as real
  }

  function Cell(i: nat, cols: nat, rows: nat, area: Pane): Pane
    requires 0 < cols && 0 < rows
  {
    var (col, row) := (i % cols, i / cols);
    var (x0, y0) := (Line(area.x, area.width, col, cols), Line(area.y, area.height, row, rows));
    var (x1, y1) := (Line(area.x, area.width, col + 1, cols), Line(area.y, area.height, row + 1, rows));
    Pane(x0, y0, x1 - x0, y1 - y0)
  }

  function Grid(n: nat, cols: nat, rows: nat, area: Pane): (panes: seq<Pane>)
    requires 0 < cols && 0 < rows
    ensures |panes| == n
  {
    if n == 0 then [] else Grid(n - 1, cols, rows, area) + [Cell(n - 1, cols, rows, area)]
  }

  method AddGrid(panes: seq<Pane>, cols: nat, rows: nat, x: real, y: real, w: real, h: real) returns (result: seq<Pane>)
    requires 0 < cols && 0 < rows
    ensures result == panes + Grid(cols * rows, cols, rows, Pane(x, y, w, h))
  {
    result := panes;
    ghost var area := Pane(x, y, w, h);
    for i := 0 to cols * rows
      invariant result == panes + Grid(i, cols, rows, area)
    {
      GridNext(panes, i, cols, rows, area);
      result := AddCell(result, i, cols, rows, x, y, w, h);
    }
  }

  /** The loop body of `AddGrid`. */
  method AddCell(panes: seq<Pane>, i: nat, cols: nat, rows: nat, x: real, y: real, w: real, h: real)
    returns (result: seq<Pane>)
    requires 0 < cols && 0 < rows
    ensures result == panes + [Cell(i, cols, rows, Pane(x, y, w, h))]
  {
    var col := i % cols;
    var row := i / cols;
    var x0 := Line(x, w, col, cols);
    var y0 := Line(y, h, row, rows);
    var x1 := Line(x, w, col + 1, cols);
    var y1 := Line(y, h, row + 1, rows);
    result := panes + [Pane(x0, y0, x1 - x0, y1 - y0)];
  }

  lemma GridNext(start: seq<Pane>, i: nat, cols: nat, rows: nat, area: Pane)
    requires 0 < cols && 0 < rows
    ensures start + Grid(i + 1, cols, rows, area) == start + Grid(i, cols, rows, area) + [Cell(i, cols, rows, area)]
  {
  }

  lemma LineEnds(start: real, length: real, n: nat)
    requires 0 < n
    ensures Line(start, length, 0, n) == start && Line(start, length, n, n) == start + length
  {
    var k := n as real;
    assert length * k / k == length;
  }

  lemma LineStep(start: real, length: real, i: nat, n: nat)
    requires 0 < n
    ensures Line(start, length, i + 1, n) == Line(start, length, i, n) + length / n as real
  {
    var (r, k) := (i as real, n as real);
    assert length * (r + 1.0) == length * r + length;
    assert (length * r + length) / k == length * r / k + length / k;
  }

  lemma StepSign(length: real, n: nat)
    requires 0 < n
    ensures 0.0 <= length ==> 0.0 <= length / n as real
    ensures length < 0.0 ==> length / n as real < 0.0
  {
  }

  lemma {:induction false} LinesRise(start: real, length: real, i: nat, n: nat)
    requires 0 < n && 0.0 <= length
    ensures start <= Line(start, length, i, n) <= Line(start, length, i + 1, n)
    decreases i
  {
    StepSign(length, n);
    LineStep(start, length, i, n);
    if i == 0 {
      LineEnds(start, length, n);
    } else {
      LinesRise(start, length, i - 1, n);
    }
  }

  lemma LinesFall(start: real, length: real, i: nat, n: nat)
    requires 0 < n && length < 0.0
    ensures Line(start, length, i + 1, n) < Line(start, length, i, n)
  {
    StepSign(length, n);
    LineStep(start, length, i, n);
  }

  predicate Within(lo: real, hi: real, u: real) {
    lo <= u < hi
  }

  /** Two neighbouring half-open intervals join to one. */
  lemma Join(lo: real, mid: real, hi: real, u: real)
    requires lo <= mid <= hi
    ensures One(Within(lo, mid, u)) + One(Within(mid, hi, u)) == One(Within(lo, hi, u))
  {
  }

  lemma CellCovers(i: nat, cols: nat, rows: nat, area: Pane, u: real, v: real)
    requires 0 < cols && 0 < rows
    ensures Cell(i, cols, rows, area).Covers(u, v) <==>
      Within(Line(area.x, area.width, i % cols, cols), Line(area.x, area.width, i % cols + 1, cols), u) &&
      Within(Line(area.y, area.height, i / cols, rows), Line(area.y, area.height, i / cols + 1, rows), v)
  {
  }

  /** The full rows before cell `n`, and the part of its row before it. */
  function Swept(n: nat, cols: nat, rows: nat, area: Pane, u: real, v: real): nat
    requires 0 < cols && 0 < rows
  {
    var (col, row) := (n % cols, n / cols);
    var (x, y) := (area.x, area.y);
    One(Within(x, x + area.width, u) && Within(y, Line(y, area.height, row, rows), v)) +
    One(Within(x, Line(x, area.width, col, cols), u) &&
        Within(Line(y, area.height, row, rows), Line(y, area.height, row + 1, rows), v))
  }

  lemma SweptStep(n: nat, cols: nat, rows: nat, area: Pane, u: real, v: real)
    requires 0 < cols && 0 < rows && 0.0 <= area.width && 0.0 <= area.height
    ensures Swept(n + 1, cols, rows, area, u, v) ==
            Swept(n, cols, rows, area, u, v) + One(Cell(n, cols, rows, area).Covers(u, v))
  {
    var (col, row) := (n % cols, n / cols);
    var (x, y) := (area.x, area.y);
    var (x0, x1) := (Line(x, area.width, col, cols), Line(x, area.width, col + 1, cols));
    var (y0, y1) := (Line(y, area.height, row, rows), Line(y, area.height, row + 1, rows));
    NextCell(n, cols);
    CellCovers(n, cols, rows, area, u, v);
    LinesRise(x, area.width, col, cols);
    LinesRise(y, area.height, row, rows);
    Join(x, x0, x1, u);
    if col + 1 == cols {
      LineEnds(x, area.width, cols);
      Join(y, y0, y1, v);
    }
  }

  lemma SmallQuotient(a: nat, b: nat)
    requires a < b
    ensures a / b == 0 && a % b == a
  {
    DivAtMost(a, b, 0);
    DivAtLeast(a, b, 0);
  }

  lemma NextCell(n: nat, cols: nat)
    requires 0 < cols
    ensures if n % cols + 1 < cols then (n + 1) % cols == n % cols + 1 && (n + 1) / cols == n / cols
            else (n + 1) % cols == 0 && (n + 1) / cols == n / cols + 1
  {
    var (q, r) := (n / cols, n % cols);
    assert n == q * cols + r;
    if r + 1 < cols {
      SmallQuotient(r + 1, cols);
      DivShift(r + 1, cols, q);
    } else {
      assert n + 1 == (q + 1) * cols;
      SmallQuotient(0, cols);
      DivShift(0, cols, q + 1);
    }
  }

  lemma {:induction false} GridSweeps(n: nat, cols: nat, rows: nat, area: Pane, u: real, v: real)
    requires 0 < cols && 0 < rows && 0.0 <= area.width && 0.0 <= area.height
    ensures Cover(Grid(n, cols, rows, area), u, v) == Swept(n, cols, rows, area, u, v)
    decreases n
  {
    if n == 0 {
      LineEnds(area.x, area.width, cols);
      LineEnds(area.y, area.height, rows);
    } else {
      GridSweeps(n - 1, cols, rows, area, u, v);
      SweptStep(n - 1, cols, rows, area, u, v);
      CoverPush(Grid(n - 1, cols, rows, area), Cell(n - 1, cols, rows, area), u, v);
    }
  }

  /** In an area of negative extent nothing is covered. */
  lemma {:induction false} EmptyGrid(n: nat, cols: nat, rows: nat, area: Pane, u: real, v: real)
    requires 0 < cols && 0 < rows && (area.width < 0.0 || area.height < 0.0)
    ensures Cover(Grid(n, cols, rows, area), u, v) == 0
    decreases n
  {
    if n != 0 {
      EmptyGrid(n - 1, cols, rows, area, u, v);
      EmptyCell(n - 1, cols, rows, area, u, v);
      CoverPush(Grid(n - 1, cols, rows, area), Cell(n - 1, cols, rows, area), u, v);
    }
  }

  lemma EmptyCell(i: nat, cols: nat, rows: nat, area: Pane, u: real, v: real)
    requires 0 < cols && 0 < rows && (area.width < 0.0 || area.height < 0.0)
    ensures !Cell(i, cols, rows, area).Covers(u, v)
  {
    CellCovers(i, cols, rows, area, u, v);
    if area.width < 0.0 {
      LinesFall(area.x, area.width, i % cols, cols);
    } else {
      LinesFall(area.y, area.height, i / cols, rows);
    }
  }

  /** A grid of any positive numbers of columns and rows tiles its area. */
  lemma GridTiles(cols: nat, rows: nat, area: Pane)
    requires 0 < cols && 0 < rows
    ensures Tiles(Grid(cols * rows, cols, rows, area), area)
  {
    forall u: real, v: real {
      GridTilesAt(cols, rows, area, u, v);
    }
  }

  lemma GridTilesAt(cols: nat, rows: nat, area: Pane, u: real, v: real)
    requires 0 < cols && 0 < rows
    ensures Cover(Grid(cols * rows, cols, rows, area), u, v) == One(area.Covers(u, v))
  {
    if area.width < 0.0 || area.height < 0.0 {
      EmptyGrid(cols * rows, cols, rows, area, u, v);
    } else {
      GridSweeps(cols * rows, cols, rows, area, u, v);
      SweptAll(cols, rows, area, u, v);
    }
  }

  /** After the last cell the whole area is swept. */
  lemma SweptAll(cols: nat, rows: nat, area: Pane, u: real, v: real)
    requires 0 < cols && 0 < rows
    ensures Swept(cols * rows, cols, rows, area, u, v) == One(area.Covers(u, v))
  {
    DivShift(0, cols, rows);
    SmallQuotient(0, cols);
    assert cols * rows == rows * cols;
    LineEnds(area.x, area.width, cols);
    LineEnds(area.y, area.height, rows);
  }

  // ----- templates -----

  function QuadArea(quad: nat): Pane {
    Pane(if quad % 2 == 0 then 0.0 else 0.5, if quad / 2 == 0 then 0.0 else 0.5, 0.5, 0.5)
  }

  function SquareGrid(n: nat, area: Pane): (panes: seq<Pane>)
    requires 0 < n
    ensures |panes| == n * n
  {
    Grid(n * n, n, n, area)
  }

  /** One quarter: whole, or cut in four. */
  function Quarter(quad: nat, smallQuad: nat): seq<Pane> {
    if quad == smallQuad then SquareGrid(2, QuadArea(quad)) else [QuadArea(quad)]
  }

  function Quad4(n: nat, smallQuad: nat): seq<Pane> {
    if n == 0 then [] else Quad4(n - 1, smallQuad) + Quarter(n - 1, smallQuad)
  }

  method AddQuad4(panes: seq<Pane>, smallQuad: nat) returns (result: seq<Pane>)
    ensures result == panes + Quad4(4, smallQuad)
  {
    result := panes;
    for quad := 0 to 4
      invariant result == panes + Quad4(quad, smallQuad)
    {
      result := AddQuarter(result, quad, smallQuad);
      assert panes + Quad4(quad, smallQuad) + Quarter(quad, smallQuad) ==
             panes + (Quad4(quad, smallQuad) + Quarter(quad, smallQuad));
    }
  }

  /** The loop body of `AddQuad4`. */
  method AddQuarter(panes: seq<Pane>, quad: nat, smallQuad: nat) returns (result: seq<Pane>)
    requires quad < 4
    ensures result == panes + Quarter(quad, smallQuad)
  {
    var x := (quad % 2) as real * 0.5;
    var y := (quad / 2) as real * 0.5;
    assert Pane(x, y, 0.5, 0.5) == QuadArea(quad);
    if quad == smallQuad {
      result := AddGrid(panes, 2, 2, x, y, 0.5, 0.5);
    } else {
      result := panes + [Pane(x, y, 0.5, 0.5)];
    }
  }

  lemma SingleTiles(p: Pane)
    ensures Tiles([p], p)
  {
    assert [p][..0] == [];
  }

  lemma QuarterTiles(quad: nat, smallQuad: nat)
    ensures Tiles(Quarter(quad, smallQuad), QuadArea(quad))
  {
    if quad == smallQuad {
      GridTiles(2, 2, QuadArea(quad));
    } else {
      SingleTiles(QuadArea(quad));
    }
  }

  lemma Quad4Tiles(smallQuad: nat)
    requires smallQuad < 4
    ensures Tiles(Quad4(4, smallQuad), FRAME)
    ensures |Quad4(4, smallQuad)| == 7
  {
    Quad4Length(4, smallQuad);
    forall u: real, v: real
      ensures Cover(Quad4(4, smallQuad), u, v) == One(FRAME.Covers(u, v))
    {
      Quad4Sum(4, smallQuad, u, v);
      FourQuarters(u, v);
    }
  }

  lemma {:induction false} Quad4Length(n: nat, smallQuad: nat)
    ensures |Quad4(n, smallQuad)| == n + (if smallQuad < n then 3 else 0)
  {
    if n != 0 {
      Quad4Length(n - 1, smallQuad);
    }
  }

  function QuarterSum(n: nat, u: real, v: real): nat {
    if n == 0 then 0 else QuarterSum(n - 1, u, v) + One(QuadArea(n - 1).Covers(u, v))
  }

  lemma {:induction false} Quad4Sum(n: nat, smallQuad: nat, u: real, v: real)
    ensures Cover(Quad4(n, smallQuad), u, v) == QuarterSum(n, u, v)
    decreases n
  {
    if n != 0 {
      Quad4Sum(n - 1, smallQuad, u, v);
      Quad4SumStep(n, smallQuad, QuarterSum(n - 1, u, v), u, v);
    }
  }

  lemma Quad4SumStep(n: nat, smallQuad: nat, covered: nat, u: real, v: real)
    requires 0 < n && Cover(Quad4(n - 1, smallQuad), u, v) == covered == QuarterSum(n - 1, u, v)
    ensures Cover(Quad4(n, smallQuad), u, v) == QuarterSum(n, u, v)
  {
    Quad4Covers(n, smallQuad, u, v);
  }

  lemma FourQuarters(u: real, v: real)
    ensures QuarterSum(4, u, v) == One(FRAME.Covers(u, v))
  {
    assert QuarterSum(1, u, v) == One(QuadArea(0).Covers(u, v));
    assert QuarterSum(2, u, v) == QuarterSum(1, u, v) + One(QuadArea(1).Covers(u, v));
    assert QuarterSum(3, u, v) == QuarterSum(2, u, v) + One(QuadArea(2).Covers(u, v));
    assert QuarterSum(4, u, v) == One(QuadArea(0).Covers(u, v)) + One(QuadArea(1).Covers(u, v)) +
                                  One(QuadArea(2).Covers(u, v)) + One(QuadArea(3).Covers(u, v));
    assert QuadArea(0) == Pane(0.0, 0.0, 0.5, 0.5) && QuadArea(1) == Pane(0.5, 0.0, 0.5, 0.5);
    assert QuadArea(2) == Pane(0.0, 0.5, 0.5, 0.5) && QuadArea(3) == Pane(0.5, 0.5, 0.5, 0.5);
  }

  lemma Quad4Covers(n: nat, smallQuad: nat, u: real, v: real)
    requires 0 < n
    ensures Cover(Quad4(n, smallQuad), u, v) ==
            Cover(Quad4(n - 1, smallQuad), u, v) + One(QuadArea(n - 1).Covers(u, v))
  {
    var (before, last) := (Quad4(n - 1, smallQuad), Quarter(n - 1, smallQuad));
    Quad4Next(n, smallQuad);
    CoverAppend(before, last, u, v);
    QuarterCovers(n - 1, smallQuad, u, v);
  }

  lemma Quad4Next(n: nat, smallQuad: nat)
    requires 0 < n
    ensures Quad4(n, smallQuad) == Quad4(n - 1, smallQuad) + Quarter(n - 1, smallQuad)
  {
  }

  lemma QuarterCovers(quad: nat, smallQuad: nat, u: real, v: real)
    ensures Cover(Quarter(quad, smallQuad), u, v) == One(QuadArea(quad).Covers(u, v))
  {
    QuarterTiles(quad, smallQuad);
  }

  // One large pane of two thirds, and five of one third.

  function Third(i: nat): real {
    i as real / 3.0
  }

  function Small(k: nat): Pane {
    var (col, row) := (k % 3, k / 3);
    Pane(Third(col), Third(row), Third(col + 1) - Third(col), Third(row + 1) - Third(row))
  }

  function Large(col: nat, row: nat): Pane {
    Pane(Third(col), Third(row), Third(col + 2) - Third(col), Third(row + 2) - Third(row))
  }

  predicate InLarge(k: nat, largeCol: nat, largeRow: nat) {
    largeCol <= k % 3 < largeCol + 2 && largeRow <= k / 3 < largeRow + 2
  }

  function Smalls(k: nat, largeCol: nat, largeRow: nat): seq<Pane> {
    if k == 0 then []
    else Smalls(k - 1, largeCol, largeRow) + (if InLarge(k - 1, largeCol, largeRow) then [] else [Small(k - 1)])
  }

  function Large5(largeCol: nat, largeRow: nat): seq<Pane> {
    [Large(largeCol, largeRow)] + Smalls(9, largeCol, largeRow)
  }

  method AddLarge5(panes: seq<Pane>, largeCol: nat, largeRow: nat) returns (result: seq<Pane>)
    ensures result == panes + Large5(largeCol, largeRow)
  {
    var x0, y0 := Third(largeCol), Third(largeRow);
    var x1, y1 := Third(largeCol + 2), Third(largeRow + 2);
    result := panes + [Pane(x0, y0, x1 - x0, y1 - y0)];
    result := AddSmalls(result, largeCol, largeRow, 3);
  }

  /** The outer loop of `AddLarge5`. */
  method AddSmalls(panes: seq<Pane>, largeCol: nat, largeRow: nat, rows: nat) returns (result: seq<Pane>)
    requires rows <= 3
    ensures result == panes + Smalls(rows * 3, largeCol, largeRow)
  {
    result := panes;
    for row := 0 to rows
      invariant result == panes + Smalls(row * 3, largeCol, largeRow)
    {
      result := AddSmallRow(result, panes, largeCol, largeRow, row);
    }
  }

  /** The inner loop of `AddLarge5`. */
  method AddSmallRow(panes: seq<Pane>, ghost start: seq<Pane>, largeCol: nat, largeRow: nat, row: nat)
    returns (result: seq<Pane>)
    requires row < 3 && panes == start + Smalls(row * 3, largeCol, largeRow)
    ensures result == start + Smalls(row * 3 + 3, largeCol, largeRow)
  {
    result := panes;
    for col := 0 to 3
      invariant result == start + Smalls(row * 3 + col, largeCol, largeRow)
    {
      SmallsNext(start, row * 3 + col, largeCol, largeRow);
      result := AddSmall(result, largeCol, largeRow, row, col);
    }
  }

  /** The body of the inner loop. */
  method AddSmall(panes: seq<Pane>, largeCol: nat, largeRow: nat, row: nat, col: nat) returns (result: seq<Pane>)
    requires row < 3 && col < 3
    ensures result == panes + (if InLarge(row * 3 + col, largeCol, largeRow) then [] else [Small(row * 3 + col)])
  {
    RowAndColumn(row, col);
    if col >= largeCol && col < largeCol + 2 && row >= largeRow && row < largeRow + 2 {
      return panes;
    }
    var sx0, sy0 := Third(col), Third(row);
    var sx1, sy1 := Third(col + 1), Third(row + 1);
    result := panes + [Pane(sx0, sy0, sx1 - sx0, sy1 - sy0)];
  }

  lemma RowAndColumn(row: nat, col: nat)
    requires col < 3
    ensures (row * 3 + col) % 3 == col && (row * 3 + col) / 3 == row
  {
  }

  lemma SmallsNext(start: seq<Pane>, k: nat, largeCol: nat, largeRow: nat)
    ensures start + Smalls(k + 1, largeCol, largeRow) ==
            start + Smalls(k, largeCol, largeRow) + (if InLarge(k, largeCol, largeRow) then [] else [Small(k)])
  {
  }

  /** How many of the first `k` thirds outside the large pane cover a point. */
  function SmallSum(k: nat, largeCol: nat, largeRow: nat, u: real, v: real): nat {
    if k == 0 then 0
    else
      SmallSum(k - 1, largeCol, largeRow, u, v) +
      (if InLarge(k - 1, largeCol, largeRow) then 0 else One(Small(k - 1).Covers(u, v)))
  }

  lemma {:induction false} SmallsSum(k: nat, largeCol: nat, largeRow: nat, u: real, v: real)
    ensures Cover(Smalls(k, largeCol, largeRow), u, v) == SmallSum(k, largeCol, largeRow, u, v)
    decreases k
  {
    if k != 0 {
      SmallsSum(k - 1, largeCol, largeRow, u, v);
      if InLarge(k - 1, largeCol, largeRow) {
        assert Smalls(k, largeCol, largeRow) == Smalls(k - 1, largeCol, largeRow);
      } else {
        CoverPush(Smalls(k - 1, largeCol, largeRow), Small(k - 1), u, v);
      }
    }
  }

  lemma SmallsLength(largeCol: nat, largeRow: nat)
    requires largeCol <= 1 && largeRow <= 1
    ensures |Smalls(9, largeCol, largeRow)| == 5
  {
    assert |Smalls(3, largeCol, largeRow)| == if largeRow == 0 then 1 else 3;
    assert |Smalls(6, largeCol, largeRow)| == |Smalls(3, largeCol, largeRow)| + 1;
  }

  predicate InThird(i: nat, u: real) {
    Third(i) <= u < Third(i + 1)
  }

  lemma ThirdsSplit(u: real)
    ensures (0.0 <= u < 1.0) <==> InThird(0, u) || InThird(1, u) || InThird(2, u)
    ensures !(InThird(0, u) && InThird(1, u)) && !(InThird(0, u) && InThird(2, u)) && !(InThird(1, u) && InThird(2, u))
  {
  }

  lemma LargeIsFour(col: nat, row: nat, u: real, v: real)
    ensures Large(col, row).Covers(u, v) <==>
      (InThird(col, u) || InThird(col + 1, u)) && (InThird(row, v) || InThird(row + 1, v))
  {
  }

  // The nine thirds as products of column and row membership.

  datatype Three = Three(a: bool, b: bool, c: bool) {
    function Pick(i: nat): bool {
      if i == 0 then a else if i == 1 then b else c
    }

    predicate AtMostOne() {
      !(a && b) && !(a && c) && !(b && c)
    }
  }

  function CellSum(k: nat, largeCol: nat, largeRow: nat, cols: Three, rows: Three): nat {
    if k == 0 then 0
    else
      CellSum(k - 1, largeCol, largeRow, cols, rows) +
      (if InLarge(k - 1, largeCol, largeRow) then 0 else One(cols.Pick((k - 1) % 3) && rows.Pick((k - 1) / 3)))
  }

  lemma CellSumRow(row: nat, largeCol: nat, largeRow: nat, cols: Three, rows: Three)
    requires largeCol <= 1 && row < 3 && cols.AtMostOne()
    ensures CellSum(3 * row + 3, largeCol, largeRow, cols, rows) == CellSum(3 * row, largeCol, largeRow, cols, rows) +
      One(rows.Pick(row) &&
          if largeRow <= row < largeRow + 2 then cols.Pick(if largeCol == 0 then 2 else 0)
          else cols.a || cols.b || cols.c)
  {
    assert (3 * row) % 3 == 0 && (3 * row + 1) % 3 == 1 && (3 * row + 2) % 3 == 2;
    assert (3 * row) / 3 == row && (3 * row + 1) / 3 == row && (3 * row + 2) / 3 == row;
    assert CellSum(3 * row + 1, largeCol, largeRow, cols, rows) == CellSum(3 * row, largeCol, largeRow, cols, rows) +
      (if InLarge(3 * row, largeCol, largeRow) then 0 else One(cols.Pick(0) && rows.Pick(row)));
    assert CellSum(3 * row + 2, largeCol, largeRow, cols, rows) ==
      CellSum(3 * row + 1, largeCol, largeRow, cols, rows) +
      (if InLarge(3 * row + 1, largeCol, largeRow) then 0 else One(cols.Pick(1) && rows.Pick(row)));
  }

  lemma NineCells(largeCol: nat, largeRow: nat, cols: Three, rows: Three)
    requires largeCol <= 1 && largeRow <= 1 && cols.AtMostOne() && rows.AtMostOne()
    ensures CellSum(9, largeCol, largeRow, cols, rows) +
      One((cols.Pick(largeCol) || cols.Pick(largeCol + 1)) && (rows.Pick(largeRow) || rows.Pick(largeRow + 1))) ==
      One((cols.a || cols.b || cols.c) && (rows.a || rows.b || rows.c))
  {
    CellSumRow(0, largeCol, largeRow, cols, rows);
    CellSumRow(1, largeCol, largeRow, cols, rows);
    CellSumRow(2, largeCol, largeRow, cols, rows);
  }

  /** Which third of the width, or height, a point lies in. */
  function Thirds(u: real): Three {
    Three(InThird(0, u), InThird(1, u), InThird(2, u))
  }

  lemma {:induction false} SmallSumIsCellSum(k: nat, largeCol: nat, largeRow: nat, u: real, v: real)
    requires k <= 9
    ensures SmallSum(k, largeCol, largeRow, u, v) == CellSum(k, largeCol, largeRow, Thirds(u), Thirds(v))
    decreases k
  {
    if k != 0 {
      SmallSumIsCellSum(k - 1, largeCol, largeRow, u, v);
      SmallIsCell(k - 1, u, v);
    }
  }

  lemma SmallIsCell(k: nat, u: real, v: real)
    requires k < 9
    ensures Small(k).Covers(u, v) <==> Thirds(u).Pick(k % 3) && Thirds(v).Pick(k / 3)
  {
    PickIsInThird(k % 3, u);
    PickIsInThird(k / 3, v);
  }

  lemma PickIsInThird(i: nat, u: real)
    requires i < 3
    ensures Thirds(u).Pick(i) <==> InThird(i, u)
  {
  }

  lemma Large5Covers(largeCol: nat, largeRow: nat, u: real, v: real)
    requires largeCol <= 1 && largeRow <= 1
    ensures Cover(Smalls(9, largeCol, largeRow), u, v) + One(Large(largeCol, largeRow).Covers(u, v)) ==
            One(FRAME.Covers(u, v))
  {
    SmallsSum(9, largeCol, largeRow, u, v);
    SmallSumIsCellSum(9, largeCol, largeRow, u, v);
    ThirdsSplit(u);
    ThirdsSplit(v);
    LargeIsFour(largeCol, largeRow, u, v);
    NineCells(largeCol, largeRow, Thirds(u), Thirds(v));
  }

  lemma Large5Tiles(largeCol: nat, largeRow: nat)
    requires largeCol <= 1 && largeRow <= 1
    ensures Tiles(Large5(largeCol, largeRow), FRAME) && |Large5(largeCol, largeRow)| == 6
  {
    SmallsLength(largeCol, largeRow);
    forall u: real, v: real
      ensures Cover(Large5(largeCol, largeRow), u, v) == One(FRAME.Covers(u, v))
    {
      SingleTiles(Large(largeCol, largeRow));
      CoverAppend([Large(largeCol, largeRow)], Smalls(9, largeCol, largeRow), u, v);
      Large5Covers(largeCol, largeRow, u, v);
    }
  }

  // All templates.

  function TileCount(t: Template): nat {
    match t
    case PreviewProgram2 => 4
    case Grid2x2 => 4
    case Quad4TopLeft => 7
    case Quad4TopRight => 7
    case Quad4BottomLeft => 7
    case Quad4BottomRight => 7
    case Large5TopLeft => 6
    case Large5TopRight => 6
    case Large5BottomLeft => 6
    case Large5BottomRight => 6
    case Grid3x3 => 9
    case Grid4x4 => 16
    case _ => 10
  }

  /** Two panes side by side or stacked, and a grid over the rest. */
  lemma PairAndGridTile(a: Pane, b: Pane, cols: nat, rows: nat, area: Pane)
    requires 0 < cols && 0 < rows
    requires forall u: real, v: real ::
      One(a.Covers(u, v)) + One(b.Covers(u, v)) + One(area.Covers(u, v)) == One(FRAME.Covers(u, v))
    ensures
      var grid := Grid(cols * rows, cols, rows, area);
      Tiles([a, b] + grid, FRAME) && Tiles(grid + [a, b], FRAME)
  {
    var grid := Grid(cols * rows, cols, rows, area);
    GridTiles(cols, rows, area);
    forall u: real, v: real
      ensures Cover([a, b] + grid, u, v) == One(FRAME.Covers(u, v))
      ensures Cover(grid + [a, b], u, v) == One(FRAME.Covers(u, v))
    {
      CoverPush([], a, u, v);
      CoverPush([a], b, u, v);
      assert [] + [a] == [a] && [a] + [b] == [a, b];
      CoverAppend([a, b], grid, u, v);
      CoverAppend(grid, [a, b], u, v);
    }
  }

  const TOP_LEFT: Pane := Pane(0.0, 0.0, 0.5, 0.5)
  const TOP_RIGHT: Pane := Pane(0.5, 0.0, 0.5, 0.5)
  const BOTTOM_LEFT: Pane := Pane(0.0, 0.5, 0.5, 0.5)
  const BOTTOM_RIGHT: Pane := Pane(0.5, 0.5, 0.5, 0.5)
  const TOP: Pane := Pane(0.0, 0.0, 1.0, 0.5)
  const BOTTOM: Pane := Pane(0.0, 0.5, 1.0, 0.5)
  const LEFT: Pane := Pane(0.0, 0.0, 0.5, 1.0)
  const RIGHT: Pane := Pane(0.5, 0.0, 0.5, 1.0)

  function PanesOf(t: Template): seq<Pane> {
    match t
    case PreviewProgram2 => [TOP_LEFT, TOP_RIGHT] + Grid(2, 2, 1, BOTTOM)
    case PreviewProgram8 => [TOP_LEFT, TOP_RIGHT] + Grid(8, 4, 2, BOTTOM)
    case PreviewProgram8Bottom => Grid(8, 4, 2, TOP) + [BOTTOM_LEFT, BOTTOM_RIGHT]
    case PreviewProgram8Left => [BOTTOM_LEFT, TOP_LEFT] + Grid(8, 2, 4, RIGHT)
    case PreviewProgram8Right => Grid(8, 2, 4, LEFT) + [BOTTOM_RIGHT, TOP_RIGHT]
    case Quad4TopLeft => Quad4(4, 0)
    case Quad4TopRight => Quad4(4, 1)
    case Quad4BottomLeft => Quad4(4, 2)
    case Quad4BottomRight => Quad4(4, 3)
    case Large5TopLeft => Large5(0, 0)
    case Large5TopRight => Large5(1, 0)
    case Large5BottomLeft => Large5(0, 1)
    case Large5BottomRight => Large5(1, 1)
    case Grid2x2 => Grid(4, 2, 2, FRAME)
    case Grid3x3 => Grid(9, 3, 3, FRAME)
    case Grid4x4 => Grid(16, 4, 4, FRAME)
  }

  lemma PreviewTiles(t: Template)
    requires HasBusPanes(t)
    ensures Tiles(PanesOf(t), FRAME)
  {
    match t {
      case PreviewProgram2 => PairAndGridTile(TOP_LEFT, TOP_RIGHT, 2, 1, BOTTOM);
      case PreviewProgram8 => PairAndGridTile(TOP_LEFT, TOP_RIGHT, 4, 2, BOTTOM);
      case PreviewProgram8Bottom => PairAndGridTile(BOTTOM_LEFT, BOTTOM_RIGHT, 4, 2, TOP);
      case PreviewProgram8Left => PairAndGridTile(BOTTOM_LEFT, TOP_LEFT, 2, 4, RIGHT);
      case PreviewProgram8Right => PairAndGridTile(BOTTOM_RIGHT, TOP_RIGHT, 2, 4, LEFT);
    }
  }

  /** Every template cuts the frame into panes without gap or overlap. */
  lemma TemplateTiles(t: Template)
    ensures Tiles(PanesOf(t), FRAME)
  {
    match t {
      case Quad4TopLeft => Quad4Tiles(0);
      case Quad4TopRight => Quad4Tiles(1);
      case Quad4BottomLeft => Quad4Tiles(2);
      case Quad4BottomRight => Quad4Tiles(3);
      case Large5TopLeft => Large5Tiles(0, 0);
      case Large5TopRight => Large5Tiles(1, 0);
      case Large5BottomLeft => Large5Tiles(0, 1);
      case Large5BottomRight => Large5Tiles(1, 1);
      case Grid2x2 => GridTiles(2, 2, FRAME);
      case Grid3x3 => GridTiles(3, 3, FRAME);
      case Grid4x4 => GridTiles(4, 4, FRAME);
      case _ => PreviewTiles(t);
    }
  }

  /** There are as many panes as `TileCount` announces. */
  lemma TemplateCount(t: Template)
    ensures |PanesOf(t)| == TileCount(t)
  {
    Quad4Length(4, 0);
    Quad4Length(4, 1);
    Quad4Length(4, 2);
    Quad4Length(4, 3);
    SmallsLength(0, 0);
    SmallsLength(1, 0);
    SmallsLength(0, 1);
    SmallsLength(1, 1);
  }

  // ----- where each template puts its panes -----

  /** From place `at` on: cells of one size, row by row, the first with its corner at (`x`, `y`). */
  ghost predicate CellsAt(panes: seq<Pane>, at: nat, cols: nat, rows: nat, x: real, y: real, w: real, h: real)
    requires 0 < cols && 0 < rows
  {
    at + cols * rows <= |panes| &&
    forall i :: 0 <= i < cols * rows ==>
      panes[at + i] == Pane(x + (i % cols) as real * w, y + (i / cols) as real * h, w, h)
  }

  lemma LineAt(start: real, step: real, i: nat, n: nat)
    requires 0 < n
    ensures Line(start, n as real * step, i, n) == start + i as real * step
  {
    var (k, r) := (n as real, i as real);
    assert (k * step) * r == k * (r * step);
    assert k * (r * step) / k == r * step;
  }

  lemma CellIs(i: nat, cols: nat, rows: nat, area: Pane, w: real, h: real)
    requires 0 < cols && 0 < rows && area.width == cols as real * w && area.height == rows as real * h
    ensures Cell(i, cols, rows, area) ==
            Pane(area.x + (i % cols) as real * w, area.y + (i / cols) as real * h, w, h)
  {
    LineAt(area.x, w, i % cols, cols);
    LineAt(area.x, w, i % cols + 1, cols);
    LineAt(area.y, h, i / cols, rows);
    LineAt(area.y, h, i / cols + 1, rows);
    StepBack((i % cols) as real, w);
    StepBack((i / cols) as real, h);
  }

  lemma StepBack(r: real, step: real)
    ensures (r + 1.0) * step - r * step == step
  {
  }

  lemma {:induction false} GridAt(n: nat, cols: nat, rows: nat, area: Pane, i: nat)
    requires 0 < cols && 0 < rows && i < n
    ensures Grid(n, cols, rows, area)[i] == Cell(i, cols, rows, area)
    decreases n
  {
    if i < n - 1 {
      GridAt(n - 1, cols, rows, area, i);
    }
  }

  lemma GridCells(before: seq<Pane>, cols: nat, rows: nat, area: Pane, after: seq<Pane>, w: real, h: real)
    requires 0 < cols && 0 < rows && area.width == cols as real * w && area.height == rows as real * h
    ensures
      CellsAt(before + Grid(cols * rows, cols, rows, area) + after, |before|, cols, rows, area.x, area.y, w, h)
  {
    var grid := Grid(cols * rows, cols, rows, area);
    var panes := before + grid + after;
    forall i | 0 <= i < cols * rows
      ensures panes[|before| + i] ==
              Pane(area.x + (i % cols) as real * w, area.y + (i / cols) as real * h, w, h)
    {
      assert panes[|before| + i] == grid[i];
      GridAt(cols * rows, cols, rows, area, i);
      CellIs(i, cols, rows, area, w, h);
    }
  }

  /** Four panes of half the size, one of them cut in four again. */
  ghost predicate QuartersAt(panes: seq<Pane>, small: nat) {
    && |panes| == 7 && small < 4
    && (small != 0 ==> panes[0] == Pane(0.0, 0.0, 0.5, 0.5))
    && (small != 1 ==> panes[if small < 1 then 4 else 1] == Pane(0.5, 0.0, 0.5, 0.5))
    && (small != 2 ==> panes[if small < 2 then 5 else 2] == Pane(0.0, 0.5, 0.5, 0.5))
    && (small != 3 ==> panes[6] == Pane(0.5, 0.5, 0.5, 0.5))
    && CellsAt(panes, small, 2, 2, if small % 2 == 0 then 0.0 else 0.5, if small < 2 then 0.0 else 0.5, 0.25, 0.25)
  }

  lemma FourInOrder(small: nat)
    ensures Quad4(4, small) == Quarter(0, small) + Quarter(1, small) + Quarter(2, small) + Quarter(3, small)
  {
    assert Quad4(1, small) == Quarter(0, small);
    assert Quad4(2, small) == Quarter(0, small) + Quarter(1, small);
    assert Quad4(3, small) == Quarter(0, small) + Quarter(1, small) + Quarter(2, small);
  }

  /** A whole quarter is one pane. */
  lemma WholeQuarter(quad: nat, small: nat)
    requires quad < 4 && quad != small
    ensures Quarter(quad, small) ==
            [Pane(if quad % 2 == 0 then 0.0 else 0.5, if quad < 2 then 0.0 else 0.5, 0.5, 0.5)]
  {
  }

  lemma CutQuarter(before: seq<Pane>, quad: nat, after: seq<Pane>)
    requires quad < 4
    ensures
      var (x, y) := (if quad % 2 == 0 then 0.0 else 0.5, if quad < 2 then 0.0 else 0.5);
      |Quarter(quad, quad)| == 4 && CellsAt(before + Quarter(quad, quad) + after, |before|, 2, 2, x, y, 0.25, 0.25)
  {
    GridCells(before, 2, 2, QuadArea(quad), after, 0.25, 0.25);
  }

  lemma FirstQuarterCut()
    ensures QuartersAt(Quad4(4, 0), 0)
  {
    var (b, c, d) := (Quarter(1, 0), Quarter(2, 0), Quarter(3, 0));
    FourInOrder(0);
    WholeQuarter(1, 0);
    WholeQuarter(2, 0);
    WholeQuarter(3, 0);
    CutQuarter([], 0, b + c + d);
    assert Quad4(4, 0) == [] + Quarter(0, 0) + (b + c + d);
  }

  lemma SecondQuarterCut()
    ensures QuartersAt(Quad4(4, 1), 1)
  {
    var (a, c, d) := (Quarter(0, 1), Quarter(2, 1), Quarter(3, 1));
    FourInOrder(1);
    WholeQuarter(0, 1);
    WholeQuarter(2, 1);
    WholeQuarter(3, 1);
    CutQuarter(a, 1, c + d);
    assert Quad4(4, 1) == a + Quarter(1, 1) + (c + d);
  }

  lemma ThirdQuarterCut()
    ensures QuartersAt(Quad4(4, 2), 2)
  {
    var (a, b, d) := (Quarter(0, 2), Quarter(1, 2), Quarter(3, 2));
    FourInOrder(2);
    WholeQuarter(0, 2);
    WholeQuarter(1, 2);
    WholeQuarter(3, 2);
    CutQuarter(a + b, 2, d);
    assert Quad4(4, 2) == (a + b) + Quarter(2, 2) + d;
  }

  lemma LastQuarterCut()
    ensures QuartersAt(Quad4(4, 3), 3)
  {
    var (a, b, c) := (Quarter(0, 3), Quarter(1, 3), Quarter(2, 3));
    FourInOrder(3);
    WholeQuarter(0, 3);
    WholeQuarter(1, 3);
    WholeQuarter(2, 3);
    CutQuarter(a + b + c, 3, []);
    assert Quad4(4, 3) == (a + b + c) + Quarter(3, 3) + [];
  }

  /** One pane of two thirds and the five thirds outside it, row by row. */
  ghost predicate LargeAndThirds(panes: seq<Pane>, large: Pane, corners: seq<(real, real)>) {
    && |panes| == 6 && |corners| == 5 && panes[0] == large
    && forall i :: 0 <= i < 5 ==> panes[1 + i] == Pane(corners[i].0, corners[i].1, 1.0 / 3.0, 1.0 / 3.0)
  }

  const TWO_THIRDS: real := 2.0 / 3.0
  const ONE_THIRD: real := 1.0 / 3.0

  /** Which pane is where, template by template. */
  ghost predicate Layout(t: Template, panes: seq<Pane>) {
    match t
    case PreviewProgram2 =>
      && |panes| == 4 && panes[0] == Pane(0.0, 0.0, 0.5, 0.5) && panes[1] == Pane(0.5, 0.0, 0.5, 0.5)
      && CellsAt(panes, 2, 2, 1, 0.0, 0.5, 0.5, 0.5)
    case PreviewProgram8 =>
      && |panes| == 10 && panes[0] == Pane(0.0, 0.0, 0.5, 0.5) && panes[1] == Pane(0.5, 0.0, 0.5, 0.5)
      && CellsAt(panes, 2, 4, 2, 0.0, 0.5, 0.25, 0.25)
    case PreviewProgram8Bottom =>
      && |panes| == 10 && panes[8] == Pane(0.0, 0.5, 0.5, 0.5) && panes[9] == Pane(0.5, 0.5, 0.5, 0.5)
      && CellsAt(panes, 0, 4, 2, 0.0, 0.0, 0.25, 0.25)
    case PreviewProgram8Left =>
      && |panes| == 10 && panes[0] == Pane(0.0, 0.5, 0.5, 0.5) && panes[1] == Pane(0.0, 0.0, 0.5, 0.5)
      && CellsAt(panes, 2, 2, 4, 0.5, 0.0, 0.25, 0.25)
    case PreviewProgram8Right =>
      && |panes| == 10 && panes[8] == Pane(0.5, 0.5, 0.5, 0.5) && panes[9] == Pane(0.5, 0.0, 0.5, 0.5)
      && CellsAt(panes, 0, 2, 4, 0.0, 0.0, 0.25, 0.25)
    case Quad4TopLeft => QuartersAt(panes, 0)
    case Quad4TopRight => QuartersAt(panes, 1)
    case Quad4BottomLeft => QuartersAt(panes, 2)
    case Quad4BottomRight => QuartersAt(panes, 3)
    case Large5TopLeft =>
      LargeAndThirds(panes, Pane(0.0, 0.0, TWO_THIRDS, TWO_THIRDS),
        [(TWO_THIRDS, 0.0), (TWO_THIRDS, ONE_THIRD),
         (0.0, TWO_THIRDS), (ONE_THIRD, TWO_THIRDS), (TWO_THIRDS, TWO_THIRDS)])
    case Large5TopRight =>
      LargeAndThirds(panes, Pane(ONE_THIRD, 0.0, TWO_THIRDS, TWO_THIRDS),
        [(0.0, 0.0), (0.0, ONE_THIRD), (0.0, TWO_THIRDS), (ONE_THIRD, TWO_THIRDS), (TWO_THIRDS, TWO_THIRDS)])
    case Large5BottomLeft =>
      LargeAndThirds(panes, Pane(0.0, ONE_THIRD, TWO_THIRDS, TWO_THIRDS),
        [(0.0, 0.0), (ONE_THIRD, 0.0), (TWO_THIRDS, 0.0), (TWO_THIRDS, ONE_THIRD), (TWO_THIRDS, TWO_THIRDS)])
    case Large5BottomRight =>
      LargeAndThirds(panes, Pane(ONE_THIRD, ONE_THIRD, TWO_THIRDS, TWO_THIRDS),
        [(0.0, 0.0), (ONE_THIRD, 0.0), (TWO_THIRDS, 0.0), (0.0, ONE_THIRD), (0.0, TWO_THIRDS)])
    case Grid2x2 => |panes| == 4 && CellsAt(panes, 0, 2, 2, 0.0, 0.0, 0.5, 0.5)
    case Grid3x3 => |panes| == 9 && CellsAt(panes, 0, 3, 3, 0.0, 0.0, ONE_THIRD, ONE_THIRD)
    case Grid4x4 => |panes| == 16 && CellsAt(panes, 0, 4, 4, 0.0, 0.0, 0.25, 0.25)
  }

  /** A grid behind or before two panes, or alone. */
  lemma GridBehind(a: Pane, b: Pane, cols: nat, rows: nat, area: Pane, w: real, h: real)
    requires 0 < cols && 0 < rows && area.width == cols as real * w && area.height == rows as real * h
    ensures
      var grid := Grid(cols * rows, cols, rows, area);
      && CellsAt([a, b] + grid, 2, cols, rows, area.x, area.y, w, h)
      && CellsAt(grid + [a, b], 0, cols, rows, area.x, area.y, w, h)
      && CellsAt(grid, 0, cols, rows, area.x, area.y, w, h)
  {
    var grid := Grid(cols * rows, cols, rows, area);
    GridCells([a, b], cols, rows, area, [], w, h);
    GridCells([], cols, rows, area, [a, b], w, h);
    GridCells([], cols, rows, area, [], w, h);
    assert [a, b] + grid + [] == [a, b] + grid && [] + grid + [a, b] == grid + [a, b] && [] + grid + [] == grid;
  }

  /** The third in this column and row. */
  function ThirdAt(col: nat, row: nat): Pane {
    Pane(Third(col), Third(row), 1.0 / 3.0, 1.0 / 3.0)
  }

  /** The thirds of one row that the large pane leaves over. */
  function RowOf(row: nat, largeCol: nat, largeRow: nat): seq<Pane> {
    if largeRow <= row < largeRow + 2 then [ThirdAt(if largeCol == 0 then 2 else 0, row)]
    else [ThirdAt(0, row), ThirdAt(1, row), ThirdAt(2, row)]
  }

  /** What a turn of the loop adds: nothing inside the large pane. */
  function Added(col: nat, row: nat, largeCol: nat, largeRow: nat): seq<Pane> {
    if largeCol <= col < largeCol + 2 && largeRow <= row < largeRow + 2 then [] else [ThirdAt(col, row)]
  }

  lemma SmallsTurn(start: seq<Pane>, col: nat, row: nat, largeCol: nat, largeRow: nat)
    requires col < 3 && start == Smalls(row * 3 + col, largeCol, largeRow)
    ensures Smalls(row * 3 + col + 1, largeCol, largeRow) == start + Added(col, row, largeCol, largeRow)
  {
    RowAndColumn(row, col);
  }

  lemma RowIsAdded(row: nat, largeCol: nat, largeRow: nat)
    requires largeCol <= 1
    ensures RowOf(row, largeCol, largeRow) ==
      Added(0, row, largeCol, largeRow) + Added(1, row, largeCol, largeRow) + Added(2, row, largeCol, largeRow)
  {
  }

  lemma ThreeMore(start: seq<Pane>, a: seq<Pane>, b: seq<Pane>, c: seq<Pane>)
    ensures start + a + b + c == start + (a + b + c)
  {
  }

  lemma SmallsOfRow(start: seq<Pane>, row: nat, largeCol: nat, largeRow: nat)
    requires largeCol <= 1 && start == Smalls(row * 3, largeCol, largeRow)
    ensures Smalls(row * 3 + 3, largeCol, largeRow) == start + RowOf(row, largeCol, largeRow)
  {
    var a := Added(0, row, largeCol, largeRow);
    var b := Added(1, row, largeCol, largeRow);
    var c := Added(2, row, largeCol, largeRow);
    SmallsTurn(start, 0, row, largeCol, largeRow);
    SmallsTurn(start + a, 1, row, largeCol, largeRow);
    SmallsTurn(start + a + b, 2, row, largeCol, largeRow);
    RowIsAdded(row, largeCol, largeRow);
    ThreeMore(start, a, b, c);
  }

  function Rows(n: nat, largeCol: nat, largeRow: nat): seq<Pane> {
    if n == 0 then [] else Rows(n - 1, largeCol, largeRow) + RowOf(n - 1, largeCol, largeRow)
  }

  lemma {:induction false} SmallsByRow(n: nat, largeCol: nat, largeRow: nat)
    requires largeCol <= 1
    ensures Smalls(n * 3, largeCol, largeRow) == Rows(n, largeCol, largeRow)
    decreases n
  {
    if n != 0 {
      SmallsByRow(n - 1, largeCol, largeRow);
      SmallsOfRow(Rows(n - 1, largeCol, largeRow), n - 1, largeCol, largeRow);
    }
  }

  lemma ThreeRows(largeCol: nat, largeRow: nat)
    requires largeCol <= 1
    ensures Large5(largeCol, largeRow) == [Large(largeCol, largeRow)] +
      (RowOf(0, largeCol, largeRow) + RowOf(1, largeCol, largeRow) + RowOf(2, largeCol, largeRow))
  {
    SmallsByRow(3, largeCol, largeRow);
    assert Rows(0, largeCol, largeRow) == [];
    assert Rows(1, largeCol, largeRow) == RowOf(0, largeCol, largeRow);
    assert Rows(2, largeCol, largeRow) == RowOf(0, largeCol, largeRow) + RowOf(1, largeCol, largeRow);
  }

  lemma LargeOnTop(largeCol: nat)
    requires largeCol <= 1
    ensures
      var x := if largeCol == 0 then 2 else 0;
      Large5(largeCol, 0) ==
      [Large(largeCol, 0), ThirdAt(x, 0), ThirdAt(x, 1), ThirdAt(0, 2), ThirdAt(1, 2), ThirdAt(2, 2)]
  {
    ThreeRows(largeCol, 0);
  }

  lemma LargeBelow(largeCol: nat)
    requires largeCol <= 1
    ensures
      var x := if largeCol == 0 then 2 else 0;
      Large5(largeCol, 1) ==
      [Large(largeCol, 1), ThirdAt(0, 0), ThirdAt(1, 0), ThirdAt(2, 0), ThirdAt(x, 1), ThirdAt(x, 2)]
  {
    ThreeRows(largeCol, 1);
  }

  lemma LargeTopLeft()
    ensures Layout(Large5TopLeft, PanesOf(Large5TopLeft))
  {
    LargeOnTop(0);
    TopLeftOf(PanesOf(Large5TopLeft));
  }

  lemma TopLeftOf(panes: seq<Pane>)
    requires panes == [Large(0, 0), ThirdAt(2, 0), ThirdAt(2, 1), ThirdAt(0, 2), ThirdAt(1, 2), ThirdAt(2, 2)]
    ensures Layout(Large5TopLeft, panes)
  {
  }

  lemma LargeTopRight()
    ensures Layout(Large5TopRight, PanesOf(Large5TopRight))
  {
    LargeOnTop(1);
  }

  lemma LargeBottomLeft()
    ensures Layout(Large5BottomLeft, PanesOf(Large5BottomLeft))
  {
    LargeBelow(0);
  }

  lemma LargeBottomRight()
    ensures Layout(Large5BottomRight, PanesOf(Large5BottomRight))
  {
    LargeBelow(1);
  }

  lemma BusLayout(t: Template)
    requires HasBusPanes(t)
    ensures Layout(t, PanesOf(t))
  {
    match t {
      case PreviewProgram8Bottom => GridBehind(BOTTOM_LEFT, BOTTOM_RIGHT, 4, 2, TOP, 0.25, 0.25);
      case PreviewProgram8Left => GridBehind(BOTTOM_LEFT, TOP_LEFT, 2, 4, RIGHT, 0.25, 0.25);
      case PreviewProgram8Right => GridBehind(BOTTOM_RIGHT, TOP_RIGHT, 2, 4, LEFT, 0.25, 0.25);
      case _ => TopBusLayout(t);
    }
  }

  lemma TopBusLayout(t: Template)
    requires t.PreviewProgram2? || t.PreviewProgram8?
    ensures Layout(t, PanesOf(t))
  {
    match t {
      case PreviewProgram2 => GridBehind(TOP_LEFT, TOP_RIGHT, 2, 1, BOTTOM, 0.5, 0.5);
      case PreviewProgram8 => GridBehind(TOP_LEFT, TOP_RIGHT, 4, 2, BOTTOM, 0.25, 0.25);
    }
  }

  /** Every template puts its panes where its name says, in the order of the tiles. */
  lemma TemplateLayout(t: Template)
    ensures Layout(t, PanesOf(t))
  {
    match t {
      case Quad4TopLeft => FirstQuarterCut();
      case Quad4TopRight => SecondQuarterCut();
      case Quad4BottomLeft => ThirdQuarterCut();
      case Quad4BottomRight => LastQuarterCut();
      case Grid2x2 => GridBehind(FRAME, FRAME, 2, 2, FRAME, 0.5, 0.5);
      case Grid3x3 => GridBehind(FRAME, FRAME, 3, 3, FRAME, ONE_THIRD, ONE_THIRD);
      case Grid4x4 => GridBehind(FRAME, FRAME, 4, 4, FRAME, 0.25, 0.25);
      case Large5TopLeft => LargeTopLeft();
      case Large5TopRight => LargeTopRight();
      case Large5BottomLeft => LargeBottomLeft();
      case Large5BottomRight => LargeBottomRight();
      case _ => BusLayout(t);
    }
  }

  predicate HasBusPanes(t: Template) {
    t.PreviewProgram2? || t.PreviewProgram8? || t.PreviewProgram8Bottom? || t.PreviewProgram8Left? ||
    t.PreviewProgram8Right?
  }

  /** The arms of `Panes` for templates with a preview and a program pane. */
  method BusPanes(template: Template) returns (panes: seq<Pane>)
    requires HasBusPanes(template)
    ensures panes == PanesOf(template)
  {
    match template {
      case PreviewProgram2 =>
        panes := PairAndGrid(TOP_LEFT, TOP_RIGHT, true, 2, 1, 0.0, 0.5, 1.0, 0.5);
      case PreviewProgram8 =>
        panes := PairAndGrid(TOP_LEFT, TOP_RIGHT, true, 4, 2, 0.0, 0.5, 1.0, 0.5);
      case PreviewProgram8Bottom =>
        panes := PairAndGrid(BOTTOM_LEFT, BOTTOM_RIGHT, false, 4, 2, 0.0, 0.0, 1.0, 0.5);
      case PreviewProgram8Left =>
        panes := PairAndGrid(BOTTOM_LEFT, TOP_LEFT, true, 2, 4, 0.5, 0.0, 0.5, 1.0);
      case PreviewProgram8Right =>
        panes := PairAndGrid(BOTTOM_RIGHT, TOP_RIGHT, false, 2, 4, 0.0, 0.0, 0.5, 1.0);
    }
  }

  /** Adds two panes and a grid, the panes first or last. */
  method PairAndGrid(a: Pane, b: Pane, first: bool, cols: nat, rows: nat, x: real, y: real, w: real, h: real)
    returns (panes: seq<Pane>)
    requires 0 < cols && 0 < rows
    ensures
      var grid := Grid(cols * rows, cols, rows, Pane(x, y, w, h));
      panes == if first then [a, b] + grid else grid + [a, b]
  {
    panes := [];
    if first {
      panes := panes + [a];
      panes := panes + [b];
    }
    panes := AddGrid(panes, cols, rows, x, y, w, h);
    if !first {
      panes := panes + [a];
      panes := panes + [b];
    }
  }

  predicate HasLargePane(t: Template) {
    t.Large5TopLeft? || t.Large5TopRight? || t.Large5BottomLeft? || t.Large5BottomRight?
  }

  method LargePanes(template: Template) returns (panes: seq<Pane>)
    requires HasLargePane(template)
    ensures panes == PanesOf(template)
  {
    var col := if template.Large5TopRight? || template.Large5BottomRight? then 1 else 0;
    var row := if template.Large5BottomLeft? || template.Large5BottomRight? then 1 else 0;
    panes := AddLarge5([], col, row);
    assert panes == Large5(col, row);
  }

  predicate HasSmallQuarter(t: Template) {
    t.Quad4TopLeft? || t.Quad4TopRight? || t.Quad4BottomLeft? || t.Quad4BottomRight?
  }

  method QuadPanes(template: Template) returns (panes: seq<Pane>)
    requires HasSmallQuarter(template)
    ensures panes == PanesOf(template)
  {
    var quad := match template
      case Quad4TopLeft => 0
      case Quad4TopRight => 1
      case Quad4BottomLeft => 2
      case Quad4BottomRight => 3;
    panes := AddQuad4([], quad);
    assert panes == Quad4(4, quad);
  }

  method GridPanes(n: nat) returns (panes: seq<Pane>)
    requires 0 < n
    ensures panes == Grid(n * n, n, n, FRAME)
  {
    panes := AddGrid([], n, n, 0.0, 0.0, 1.0, 1.0);
    assert panes == Grid(n * n, n, n, FRAME);
  }

  /** `Panes`: the arms of its switch, one family at a time. */
  method Panes(template: Template) returns (panes: seq<Pane>)
    ensures panes == PanesOf(template)
    ensures Tiles(panes, FRAME) && |panes| == TileCount(template)
    ensures Layout(template, panes)
  {
    TemplateLayout(template);
    TemplateTiles(template);
    TemplateCount(template);
    if HasBusPanes(template) {
      panes := BusPanes(template);
    } else if HasSmallQuarter(template) {
      panes := QuadPanes(template);
    } else if HasLargePane(template) {
      panes := LargePanes(template);
    } else if template.Grid3x3? {
      panes := GridPanes(3);
    } else if template.Grid4x4? {
      panes := GridPanes(4);
    } else {
      panes := GridPanes(2);
    }
  }
}
