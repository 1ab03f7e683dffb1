/** Deblocking a whole picture: the order of the edges does not matter, and filtering
    horizontal edges is filtering the vertical edges of the transposed picture. */
module DeblkOrder {
  import opened Common
  import opened DeblkFilter
  import opened DeblkLuma
  import opened Reorder

  type Picture = Grid<int>

  type LumaEdge = Edge<Params>

  /** A vertical edge inside a picture of h rows and w columns. */
  predicate Inside(e: LumaEdge, h: nat, w: nat) {
    8 <= e.x && e.x + 4 <= w && e.y + 4 <= h
  }

  /** A vertical edge on the 8-sample grid, with its 4-row segments aligned. */
  predicate OnGrid(e: LumaEdge, h: nat, w: nat) {
    Inside(e, h, w) && e.x % 8 == 0 && e.y % 4 == 0
  }

  function RowLine(row: seq<int>, x: nat): Line
    requires 4 <= x && x + 4 <= |row|
  {
    Line(row[x - 4], row[x - 3], row[x - 2], row[x - 1], row[x], row[x + 1], row[x + 2], row[x + 3])
  }

  /** The row with the six samples around column x replaced by those of l. */
  function PutLine(row: seq<int>, x: nat, l: Line): (r: seq<int>)
    requires 4 <= x && x + 4 <= |row|
    ensures |r| == |row|
  {
    row[x - 3 := l.p2][x - 2 := l.p1][x - 1 := l.p0][x := l.q0][x + 1 := l.q1][x + 2 := l.q2]
  }

  function Gather(pic: Picture, e: LumaEdge, w: nat): Four
    requires Rect(pic, w) && Inside(e, |pic|, w)
  {
    Four(RowLine(pic[e.y], e.x), RowLine(pic[e.y + 1], e.x), RowLine(pic[e.y + 2], e.x), RowLine(pic[e.y + 3], e.x))
  }

  /** Row y of the picture after a call, given the filtered lines. */
  function RowAfter(row: seq<int>, y: nat, e: LumaEdge, fs: Four): seq<int>
    requires 4 <= e.x && e.x + 4 <= |row|
  {
    if e.y <= y < e.y + 4 then PutLine(row, e.x, fs.Nth(y - e.y)) else row
  }

  /** The picture after one call at a vertical edge. */
  function ApplyVert(pic: Picture, e: LumaEdge, w: nat): (r: Picture)
    requires Rect(pic, w) && Inside(e, |pic|, w)
    ensures |r| == |pic| && Rect(r, w)
  {
    var fs := Segment(Gather(pic, e, w), e.p);
    seq(|pic|, y requires 0 <= y < |pic| => RowAfter(pic[y], y, e, fs))
  }

  /** Distinct edges share no rows, or are at least eight columns apart. */
  lemma GridApart(a: LumaEdge, b: LumaEdge, h: nat, w: nat)
    requires OnGrid(a, h, w) && OnGrid(b, h, w) && (a.y, a.x) != (b.y, b.x)
    ensures a.y + 4 <= b.y || b.y + 4 <= a.y || (a.y == b.y && (a.x + 8 <= b.x || b.x + 8 <= a.x))
  {
  }

  lemma RowLineApart(row: seq<int>, x: nat, l: Line, z: nat)
    requires 4 <= x && x + 4 <= |row| && 4 <= z && z + 4 <= |row| && (x + 8 <= z || z + 8 <= x)
    ensures RowLine(PutLine(row, x, l), z) == RowLine(row, z)
  {
  }

  /** Calls at distinct edges do not see each other's writes. */
  lemma GatherUnaffected(pic: Picture, a: LumaEdge, b: LumaEdge, w: nat)
    requires Rect(pic, w) && OnGrid(a, |pic|, w) && OnGrid(b, |pic|, w)
    requires (a.y, a.x) != (b.y, b.x)
    ensures Gather(ApplyVert(pic, a, w), b, w) == Gather(pic, b, w)
  {
    GridApart(a, b, |pic|, w);
    var r, fs := ApplyVert(pic, a, w), Segment(Gather(pic, a, w), a.p);
    forall y | b.y <= y < b.y + 4
      ensures RowLine(r[y], b.x) == RowLine(pic[y], b.x)
    {
      if a.y == b.y {
        RowLineApart(pic[y], a.x, fs.Nth(y - a.y), b.x);
      }
    }
  }

  lemma PutLineCommutes(row: seq<int>, x: nat, l: Line, z: nat, m: Line)
    requires 4 <= x && x + 4 <= |row| && 4 <= z && z + 4 <= |row| && (x + 8 <= z || z + 8 <= x)
    ensures PutLine(PutLine(row, x, l), z, m) == PutLine(PutLine(row, z, m), x, l)
  {
  }

  lemma RowAfterCommutes(row: seq<int>, y: nat, a: LumaEdge, fa: Four, b: LumaEdge, fb: Four, h: nat, w: nat)
    requires OnGrid(a, h, w) && OnGrid(b, h, w) && (a.y, a.x) != (b.y, b.x) && |row| == w
    ensures RowAfter(RowAfter(row, y, a, fa), y, b, fb) == RowAfter(RowAfter(row, y, b, fb), y, a, fa)
  {
    GridApart(a, b, h, w);
    if a.y == b.y && a.y <= y < a.y + 4 {
      PutLineCommutes(row, a.x, fa.Nth(y - a.y), b.x, fb.Nth(y - b.y));
    }
  }

  lemma Commute(pic: Picture, a: LumaEdge, b: LumaEdge, w: nat)
    requires Rect(pic, w) && OnGrid(a, |pic|, w) && OnGrid(b, |pic|, w)
    requires (a.y, a.x) != (b.y, b.x)
    ensures ApplyVert(ApplyVert(pic, a, w), b, w) == ApplyVert(ApplyVert(pic, b, w), a, w)
  {
    GatherUnaffected(pic, a, b, w);
    GatherUnaffected(pic, b, a, w);
    var fa, fb := Segment(Gather(pic, a, w), a.p), Segment(Gather(pic, b, w), b.p);
    var pa, pb := ApplyVert(pic, a, w), ApplyVert(pic, b, w);
    var ab, ba := ApplyVert(pa, b, w), ApplyVert(pb, a, w);
    forall y | 0 <= y < |pic|
      ensures ab[y] == ba[y]
    {
      assert ab[y] == RowAfter(RowAfter(pic[y], y, a, fa), y, b, fb);
      assert ba[y] == RowAfter(RowAfter(pic[y], y, b, fb), y, a, fa);
      RowAfterCommutes(pic[y], y, a, fa, b, fb, |pic|, w);
    }
  }

  // Horizontal edges.

  /** The same segment in the transposed picture. */
  /** A horizontal edge on the 8-sample grid, with its 4-column segments aligned. */
  predicate OnGridHorz(e: LumaEdge, h: nat, w: nat) {
    OnGrid(Turn(e), w, h)
  }

  function ColumnLine(pic: Picture, w: nat, y: nat, x: nat): Line
    requires Rect(pic, w) && 4 <= y && y + 4 <= |pic| && x < w
  {
    Line(pic[y - 4][x], pic[y - 3][x], pic[y - 2][x], pic[y - 1][x],
         pic[y][x], pic[y + 1][x], pic[y + 2][x], pic[y + 3][x])
  }

  function GatherHorz(pic: Picture, e: LumaEdge, w: nat): Four
    requires Rect(pic, w) && Inside(Turn(e), w, |pic|)
  {
    Four(ColumnLine(pic, w, e.y, e.x), ColumnLine(pic, w, e.y, e.x + 1),
         ColumnLine(pic, w, e.y, e.x + 2), ColumnLine(pic, w, e.y, e.x + 3))
  }

  /** Sample t of the six that a line's filter may change, counted from q0. */
  function Tap(l: Line, t: int): int
    requires -3 <= t < 3
  {
    if t == -3 then l.p2 else if t == -2 then l.p1 else if t == -1 then l.p0
    else if t == 0 then l.q0 else if t == 1 then l.q1 else l.q2
  }

  /** Row y of the picture after a call at a horizontal edge, given the filtered lines. */
  function RowAfterHorz(row: seq<int>, y: nat, e: LumaEdge, fs: Four, w: nat): (r: seq<int>)
    requires |row| == w
    ensures |r| == w
  {
    seq(w, x requires 0 <= x < w =>
      if e.x <= x < e.x + 4 && e.y - 3 <= y < e.y + 3 then Tap(fs.Nth(x - e.x), y - e.y) else row[x])
  }

  /** The picture after one call at a horizontal edge. */
  function ApplyHorz(pic: Picture, e: LumaEdge, w: nat): (r: Picture)
    requires Rect(pic, w) && Inside(Turn(e), w, |pic|)
    ensures |r| == |pic| && Rect(r, w)
  {
    var fs := Segment(GatherHorz(pic, e, w), e.p);
    seq(|pic|, y requires 0 <= y < |pic| => RowAfterHorz(pic[y], y, e, fs, w))
  }

  lemma PutLineSample(row: seq<int>, x: nat, l: Line, c: nat)
    requires 4 <= x && x + 4 <= |row| && c < |row|
    ensures PutLine(row, x, l)[c] == if x - 3 <= c < x + 3 then Tap(l, c - x) else row[c]
  {
  }

  /** Horizontal filtering of the transposed picture is the transpose of vertical filtering,
      for all samples, edges and parameters. */
  lemma HorzIsTransposedVert(pic: Picture, e: LumaEdge, w: nat)
    requires Rect(pic, w) && Inside(e, |pic|, w)
    ensures ApplyHorz(Transposed(pic, w), Turn(e), |pic|) == Transposed(ApplyVert(pic, e, w), w)
  {
    var t, v := Transposed(pic, w), ApplyVert(pic, e, w);
    var a, b := ApplyHorz(t, Turn(e), |pic|), Transposed(v, w);
    assert GatherHorz(t, Turn(e), |pic|) == Gather(pic, e, w);
    var fs := Segment(Gather(pic, e, w), e.p);
    forall x | 0 <= x < w
      ensures a[x] == b[x]
    {
      forall y | 0 <= y < |pic|
        ensures a[x][y] == b[x][y]
      {
        if e.y <= y < e.y + 4 {
          PutLineSample(pic[y], e.x, fs.Nth(y - e.y), x);
        }
      }
    }
  }

  lemma CommuteHorz(pic: Picture, a: LumaEdge, b: LumaEdge, w: nat)
    requires Rect(pic, w) && OnGridHorz(a, |pic|, w) && OnGridHorz(b, |pic|, w)
    requires (a.y, a.x) != (b.y, b.x)
    ensures ApplyHorz(ApplyHorz(pic, a, w), b, w) == ApplyHorz(ApplyHorz(pic, b, w), a, w)
  {
    var t, h, ta, tb := Transposed(pic, w), |pic|, Turn(a), Turn(b);
    TransposedTwice(pic, w);
    HorzIsTransposedVert(t, ta, h);
    HorzIsTransposedVert(t, tb, h);
    HorzIsTransposedVert(ApplyVert(t, ta, h), tb, h);
    HorzIsTransposedVert(ApplyVert(t, tb, h), ta, h);
    Commute(t, ta, tb, h);
  }

  // Lists of edges.

  /** One call. Calls are made at edges on the grid; anywhere else the picture is kept, so
      that a step is defined for every edge. */
  function Step(pic: Picture, e: LumaEdge, w: nat, vertical: bool): Picture {
    if !Rect(pic, w) then pic
    else if vertical then (if OnGrid(e, |pic|, w) then ApplyVert(pic, e, w) else pic)
    else if OnGridHorz(e, |pic|, w) then ApplyHorz(pic, e, w) else pic
  }

  /** What every list of edges of one direction needs, for luma. */
  lemma StepsOrderly()
    ensures Orderly(Step)
  {
    forall pic, a, b, w, vertical | Position(a) != Position(b)
      ensures Step(Step(pic, a, w, vertical), b, w, vertical) == Step(Step(pic, b, w, vertical), a, w, vertical)
    {
      if Rect(pic, w) && vertical && OnGrid(a, |pic|, w) && OnGrid(b, |pic|, w) {
        Commute(pic, a, b, w);
      } else if Rect(pic, w) && !vertical && OnGridHorz(a, |pic|, w) && OnGridHorz(b, |pic|, w) {
        CommuteHorz(pic, a, b, w);
      }
    }
    forall pic, e, w | Rect(pic, w)
      ensures var v := Step(pic, e, w, true);
        |v| == |pic| && Rect(v, w) && Transposed(v, w) == Step(Transposed(pic, w), Turn(e), |pic|, false)
    {
      if OnGrid(e, |pic|, w) { HorzIsTransposedVert(pic, e, w); }
    }
  }
}
