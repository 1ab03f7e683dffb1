/** Chroma deblocking of a whole picture of U/V pairs: transposition, the calls on one buffer as
    steps on the picture it holds, and the order of the edges. */
module DeblkChromaOrder {
  import opened Common
  import opened DeblkFilter
  import opened DeblkChroma
  import opened Reorder

  // Transposition, with the components of a pair kept together.

  type PairPicture = Grid<Pair>

  /** The picture after a call at the vertical edge whose first Q pair is at row y, column x. */
  function ApplyVert(pic: PairPicture, w: nat, y: nat, x: nat, p: ChromaParams): (r: PairPicture)
    requires Rect(pic, w) && y + 4 <= |pic| && 2 <= x && x + 2 <= w
    ensures |r| == |pic| && Rect(r, w)
  {
    seq(|pic|, i requires 0 <= i < |pic| => seq(w, j requires 0 <= j < w =>
      if y <= i < y + 4 && (j == x - 1 || j == x) then
        var f := Filtered(PairLine(pic[i][x - 2], pic[i][x - 1], pic[i][x], pic[i][x + 1]), p);
        if j == x then f.q0 else f.p0
      else pic[i][j]))
  }

  /** The picture after a call at the horizontal edge whose first Q pair is at row y, column x. */
  function ApplyHorz(pic: PairPicture, w: nat, y: nat, x: nat, p: ChromaParams): (r: PairPicture)
    requires Rect(pic, w) && 2 <= y && y + 2 <= |pic| && x + 4 <= w
    ensures |r| == |pic| && Rect(r, w)
  {
    seq(|pic|, i requires 0 <= i < |pic| => seq(w, j requires 0 <= j < w =>
      if x <= j < x + 4 && (i == y - 1 || i == y) then
        var f := Filtered(PairLine(pic[y - 2][j], pic[y - 1][j], pic[y][j], pic[y + 1][j]), p);
        if i == y then f.q0 else f.p0
      else pic[i][j]))
  }

  lemma PairTransposed(pic: PairPicture, w: nat, y: nat, x: nat, p: ChromaParams, i: nat, j: nat)
    requires Rect(pic, w) && y + 4 <= |pic| && 2 <= x && x + 2 <= w && i < |pic| && j < w
    ensures ApplyHorz(Transposed(pic, w), |pic|, x, y, p)[j][i] == ApplyVert(pic, w, y, x, p)[i][j]
  {
    var t := Transposed(pic, w);
    if y <= i < y + 4 && (j == x - 1 || j == x) {
      assert t[x - 2][i] == pic[i][x - 2] && t[x - 1][i] == pic[i][x - 1];
      assert t[x][i] == pic[i][x] && t[x + 1][i] == pic[i][x + 1];
    } else {
      assert t[j][i] == pic[i][j];
    }
  }

  /** Horizontal chroma filtering of the transposed picture is the transpose of vertical
      chroma filtering, although one walks four rows of pairs and the other eight columns. */
  lemma HorzIsTransposedVert(pic: PairPicture, w: nat, y: nat, x: nat, p: ChromaParams)
    requires Rect(pic, w) && y + 4 <= |pic| && 2 <= x && x + 2 <= w
    ensures ApplyHorz(Transposed(pic, w), |pic|, x, y, p) == Transposed(ApplyVert(pic, w, y, x, p), w)
  {
    var v := ApplyVert(pic, w, y, x, p);
    var a, b := ApplyHorz(Transposed(pic, w), |pic|, x, y, p), Transposed(v, w);
    forall j | 0 <= j < w
      ensures a[j] == b[j]
    {
      forall i | 0 <= i < |pic|
        ensures a[j][i] == b[j][i]
      {
        PairTransposed(pic, w, y, x, p, i, j);
      }
    }
  }

  // The calls on one buffer, as steps on pair pictures.

  /** Where pair (y, x) of a picture w pairs wide lies. */
  function Pos(w: nat, y: nat, x: nat): nat { At(0, 2 * w, y) + 2 * x }

  lemma PosFits(w: nat, h: nat, y: nat, x: nat)
    requires y < h && x < w
    ensures Pos(w, y, x) + 1 < At(0, 2 * w, h)
  {
    AtGap(0, 2 * w, y, h);
  }

  /** The picture of w by h pairs that a buffer holds, row after row. */
  function PairsOf(s: seq<int>, w: nat, h: nat): (pic: PairPicture)
    requires At(0, 2 * w, h) <= |s|
    ensures |pic| == h && Rect(pic, w)
  {
    seq(h, y requires 0 <= y < h => seq(w, x requires 0 <= x < w => (PosFits(w, h, y, x); PairAt(s, Pos(w, y, x)))))
  }

  /** Successive rows of a segment. */
  lemma StartOfRow(w: nat, y: nat, x: nat, k: nat)
    requires k < 4
    ensures Start(Pos(w, y, x), 2 * w, k) == Pos(w, y + k, x)
  {
    assert At(0, 2 * w, y + 1) == At(0, 2 * w, y) + 2 * w;
    assert At(0, 2 * w, y + 2) == At(0, 2 * w, y + 1) + 2 * w;
    assert At(0, 2 * w, y + 3) == At(0, 2 * w, y + 2) + 2 * w;
  }

  /** Pairs of different rows do not meet. */
  lemma RowsApart(w: nat, y: nat, x: nat, i: nat, j: nat)
    requires x < w && j < w && i != y
    ensures Pos(w, i, j) + 2 * (w - j) <= Pos(w, y, x) - 2 * x || Pos(w, y, x) + 2 * (w - x) <= Pos(w, i, j) - 2 * j
  {
    if i < y { AtGap(0, 2 * w, i, y); } else { AtGap(0, 2 * w, y, i); }
  }

  predicate VertFits(w: nat, h: nat, y: nat, x: nat) {
    4 <= w && 2 <= x && x + 2 <= w && y + 4 <= h
  }

  predicate HorzFits(w: nat, h: nat, y: nat, x: nat) {
    4 <= w && 2 <= y && y + 2 <= h && x + 4 <= w
  }

  lemma VertReach(length: nat, w: nat, h: nat, y: nat, x: nat)
    requires VertFits(w, h, y, x) && At(0, 2 * w, h) <= length
    ensures 4 <= Pos(w, y, x) && Pos(w, y, x) + 3 * (2 * w) + 3 < length
  {
    PosFits(w, h, y + 3, x + 1);
    StartOfRow(w, y, x, 3);
  }

  /** Outside the filtered pairs of its row, a pair is apart from row k of the segment. */
  lemma OffRow(w: nat, y: nat, x: nat, k: nat, i: nat, j: nat)
    requires k < 4 && 2 <= x && x + 2 <= w && j < w && (i == y + k ==> j != x - 1 && j != x)
    ensures var cur := Start(Pos(w, y, x), 2 * w, k); Pos(w, i, j) + 1 < cur - 2 || cur + 2 <= Pos(w, i, j)
  {
    StartOfRow(w, y, x, k);
    if i != y + k { RowsApart(w, y + k, x, i, j); }
  }

  lemma OffSegment(w: nat, y: nat, x: nat, i: nat, j: nat)
    requires 2 <= x && x + 2 <= w && j < w && !(y <= i < y + 4 && (j == x - 1 || j == x))
    ensures ApartVert(Pos(w, i, j), Pos(w, y, x), 2 * w) && ApartVert(Pos(w, i, j) + 1, Pos(w, y, x), 2 * w)
  {
    OffRow(w, y, x, 0, i, j);
    OffRow(w, y, x, 1, i, j);
    OffRow(w, y, x, 2, i, j);
    OffRow(w, y, x, 3, i, j);
  }

  lemma VertLine(s: seq<int>, w: nat, h: nat, i: nat, x: nat)
    requires 2 <= x && x + 2 <= w && i < h && At(0, 2 * w, h) <= |s|
    ensures 4 <= Pos(w, i, x) && Pos(w, i, x) + 3 < |s|
    ensures var pic := PairsOf(s, w, h);
      PairLineAt(s, Pos(w, i, x), 2) == PairLine(pic[i][x - 2], pic[i][x - 1], pic[i][x], pic[i][x + 1])
  {
    PosFits(w, h, i, x + 1);
  }

  lemma VertNear(s: seq<int>, u: seq<int>, w: nat, h: nat, y: nat, x: nat, p: ChromaParams, i: nat, j: nat)
    requires VertFits(w, h, y, x) && At(0, 2 * w, h) <= |s| == |u| && i < h && j < w
    requires var at := Pos(w, y, x);
      && 4 <= at && at + 3 * (2 * w) + 3 < |s| && Done(u, s, at, 2 * w, 2, p, 4)
      && forall k | 0 <= k < |s| && ApartVert(k, at, 2 * w) :: u[k] == s[k]
    requires y <= i < y + 4 && (j == x - 1 || j == x)
    ensures PairsOf(u, w, h)[i][j] == ApplyVert(PairsOf(s, w, h), w, y, x, p)[i][j]
  {
    var at := Pos(w, y, x);
    StartOfRow(w, y, x, i - y);
    VertLine(s, w, h, i, x);
    VertLine(u, w, h, i, x);
    assert PairLineAt(u, Start(at, 2 * w, i - y), 2) == Filtered(PairLineAt(s, Start(at, 2 * w, i - y), 2), p);
  }

  lemma VertPair(s: seq<int>, u: seq<int>, w: nat, h: nat, y: nat, x: nat, p: ChromaParams, i: nat, j: nat)
    requires VertFits(w, h, y, x) && At(0, 2 * w, h) <= |s| == |u| && i < h && j < w
    requires var at := Pos(w, y, x);
      && 4 <= at && at + 3 * (2 * w) + 3 < |s| && Done(u, s, at, 2 * w, 2, p, 4)
      && forall k | 0 <= k < |s| && ApartVert(k, at, 2 * w) :: u[k] == s[k]
    ensures PairsOf(u, w, h)[i][j] == ApplyVert(PairsOf(s, w, h), w, y, x, p)[i][j]
  {
    if y <= i < y + 4 && (j == x - 1 || j == x) {
      VertNear(s, u, w, h, y, x, p, i, j);
    } else {
      PosFits(w, h, i, j);
      OffSegment(w, y, x, i, j);
      assert u[Pos(w, i, j)] == s[Pos(w, i, j)] && u[Pos(w, i, j) + 1] == s[Pos(w, i, j) + 1];
    }
  }

  /** A vertical-edge call on a buffer is the step on the picture it holds. */
  lemma VertCall(s: seq<int>, u: seq<int>, w: nat, h: nat, y: nat, x: nat, p: ChromaParams)
    requires VertFits(w, h, y, x) && At(0, 2 * w, h) <= |s| == |u|
    requires var at := Pos(w, y, x);
      && 4 <= at && at + 3 * (2 * w) + 3 < |s| && Done(u, s, at, 2 * w, 2, p, 4)
      && forall k | 0 <= k < |s| && ApartVert(k, at, 2 * w) :: u[k] == s[k]
    ensures PairsOf(u, w, h) == ApplyVert(PairsOf(s, w, h), w, y, x, p)
  {
    var a, b := PairsOf(u, w, h), ApplyVert(PairsOf(s, w, h), w, y, x, p);
    forall i | 0 <= i < h
      ensures a[i] == b[i]
    {
      forall j | 0 <= j < w
        ensures a[i][j] == b[i][j]
      {
        VertPair(s, u, w, h, y, x, p, i, j);
      }
    }
  }

  lemma HorzReach(length: nat, w: nat, h: nat, y: nat, x: nat)
    requires HorzFits(w, h, y, x) && At(0, 2 * w, h) <= length
    ensures 2 * (2 * w) <= Pos(w, y, x) && Pos(w, y, x) + 2 * w + 7 < length
  {
    PosFits(w, h, y + 1, x + 3);
    StartOfRow(w, y - 2, x, 2);
  }

  lemma HorzOff(w: nat, y: nat, x: nat, i: nat, j: nat)
    requires 2 <= y && x + 4 <= w && j < w && !(x <= j < x + 4 && (i == y - 1 || i == y))
    ensures ApartHorz(Pos(w, i, j), Pos(w, y, x), 2 * w) && ApartHorz(Pos(w, i, j) + 1, Pos(w, y, x), 2 * w)
  {
    assert Pos(w, y, x) == Pos(w, y - 1, x) + 2 * w;
    if i != y { RowsApart(w, y, x, i, j); }
    if i != y - 1 { RowsApart(w, y - 1, x, i, j); }
  }

  lemma HorzLine(s: seq<int>, w: nat, h: nat, y: nat, j: nat)
    requires 2 <= y && y + 2 <= h && j < w && At(0, 2 * w, h) <= |s|
    ensures 2 * (2 * w) <= Pos(w, y, j) && Pos(w, y, j) + 2 * w + 1 < |s|
    ensures var pic := PairsOf(s, w, h);
      PairLineAt(s, Pos(w, y, j), 2 * w) == PairLine(pic[y - 2][j], pic[y - 1][j], pic[y][j], pic[y + 1][j])
  {
    StartOfRow(w, y - 2, j, 1);
    StartOfRow(w, y - 2, j, 2);
    StartOfRow(w, y - 2, j, 3);
    PosFits(w, h, y + 1, j);
  }

  lemma HorzNear(s: seq<int>, u: seq<int>, w: nat, h: nat, y: nat, x: nat, p: ChromaParams, i: nat, j: nat)
    requires HorzFits(w, h, y, x) && At(0, 2 * w, h) <= |s| == |u| && i < h && j < w
    requires var at := Pos(w, y, x);
      && 2 * (2 * w) <= at && at + 2 * w + 7 < |s| && Done(u, s, at, 2, 2 * w, p, 4)
      && forall k | 0 <= k < |s| && ApartHorz(k, at, 2 * w) :: u[k] == s[k]
    requires x <= j < x + 4 && (i == y - 1 || i == y)
    ensures PairsOf(u, w, h)[i][j] == ApplyHorz(PairsOf(s, w, h), w, y, x, p)[i][j]
  {
    var at := Pos(w, y, x);
    HorzLine(s, w, h, y, j);
    HorzLine(u, w, h, y, j);
    assert Start(at, 2, j - x) == Pos(w, y, j);
    assert PairLineAt(u, Start(at, 2, j - x), 2 * w) == Filtered(PairLineAt(s, Start(at, 2, j - x), 2 * w), p);
  }

  lemma HorzPair(s: seq<int>, u: seq<int>, w: nat, h: nat, y: nat, x: nat, p: ChromaParams, i: nat, j: nat)
    requires HorzFits(w, h, y, x) && At(0, 2 * w, h) <= |s| == |u| && i < h && j < w
    requires var at := Pos(w, y, x);
      && 2 * (2 * w) <= at && at + 2 * w + 7 < |s| && Done(u, s, at, 2, 2 * w, p, 4)
      && forall k | 0 <= k < |s| && ApartHorz(k, at, 2 * w) :: u[k] == s[k]
    ensures PairsOf(u, w, h)[i][j] == ApplyHorz(PairsOf(s, w, h), w, y, x, p)[i][j]
  {
    if x <= j < x + 4 && (i == y - 1 || i == y) {
      HorzNear(s, u, w, h, y, x, p, i, j);
    } else {
      PosFits(w, h, i, j);
      HorzOff(w, y, x, i, j);
      assert u[Pos(w, i, j)] == s[Pos(w, i, j)] && u[Pos(w, i, j) + 1] == s[Pos(w, i, j) + 1];
    }
  }

  /** A horizontal-edge call on a buffer is the step on the picture it holds. */
  lemma HorzCall(s: seq<int>, u: seq<int>, w: nat, h: nat, y: nat, x: nat, p: ChromaParams)
    requires HorzFits(w, h, y, x) && At(0, 2 * w, h) <= |s| == |u|
    requires var at := Pos(w, y, x);
      && 2 * (2 * w) <= at && at + 2 * w + 7 < |s| && Done(u, s, at, 2, 2 * w, p, 4)
      && forall k | 0 <= k < |s| && ApartHorz(k, at, 2 * w) :: u[k] == s[k]
    ensures PairsOf(u, w, h) == ApplyHorz(PairsOf(s, w, h), w, y, x, p)
  {
    var a, b := PairsOf(u, w, h), ApplyHorz(PairsOf(s, w, h), w, y, x, p);
    forall i | 0 <= i < h
      ensures a[i] == b[i]
    {
      forall j | 0 <= j < w
        ensures a[i][j] == b[i][j]
      {
        HorzPair(s, u, w, h, y, x, p, i, j);
      }
    }
  }

  // One call.

  /** Nothing has changed past the picture. */
  ghost predicate KeptBeyond(u: seq<int>, s: seq<int>, w: nat, h: nat) {
    |u| == |s| && forall i | At(0, 2 * w, h) <= i < |u| :: u[i] == s[i]
  }

  method FilterVert(pic: array<int>, w: nat, h: nat, y: nat, x: nat, p: ChromaParams)
    requires VertFits(w, h, y, x) && At(0, 2 * w, h) <= pic.Length && AllBytes(pic[..])
    modifies pic
    ensures AllBytes(pic[..]) && PairsOf(pic[..], w, h) == ApplyVert(PairsOf(old(pic[..]), w, h), w, y, x, p)
    ensures KeptBeyond(pic[..], old(pic[..]), w, h)
  {
    ghost var s := pic[..];
    VertReach(At(0, 2 * w, h), w, h, y, x);
    VertReach(pic.Length, w, h, y, x);
    ChromaVert(pic, Pos(w, y, x), 2 * w, p);
    VertCall(s, pic[..], w, h, y, x, p);
  }

  method FilterHorz(pic: array<int>, w: nat, h: nat, y: nat, x: nat, p: ChromaParams)
    requires HorzFits(w, h, y, x) && At(0, 2 * w, h) <= pic.Length && AllBytes(pic[..])
    modifies pic
    ensures AllBytes(pic[..]) && PairsOf(pic[..], w, h) == ApplyHorz(PairsOf(old(pic[..]), w, h), w, y, x, p)
    ensures KeptBeyond(pic[..], old(pic[..]), w, h)
  {
    ghost var s := pic[..];
    HorzReach(At(0, 2 * w, h), w, h, y, x);
    HorzReach(pic.Length, w, h, y, x);
    ChromaHorz(pic, Pos(w, y, x), 2 * w, p);
    HorzCall(s, pic[..], w, h, y, x, p);
  }

  /** Two buffers that hold transposed pictures hold transposed pictures after filtering one at a
      vertical edge and the other at the same edge turned. */
  method FilterTransposed(a: array<int>, b: array<int>, w: nat, h: nat, y: nat, x: nat, p: ChromaParams)
    requires a != b && VertFits(w, h, y, x) && At(0, 2 * w, h) <= a.Length && At(0, 2 * h, w) <= b.Length
    requires AllBytes(a[..]) && AllBytes(b[..]) && PairsOf(b[..], h, w) == Transposed(PairsOf(a[..], w, h), w)
    modifies a, b
    ensures PairsOf(b[..], h, w) == Transposed(PairsOf(a[..], w, h), w)
  {
    ghost var s := a[..];
    FilterVert(a, w, h, y, x, p);
    FilterHorz(b, h, w, x, y, p);
    HorzIsTransposedVert(PairsOf(s, w, h), w, y, x, p);
  }

  // The order of the edges.

  type PairEdge = Edge<ChromaParams>

  /** A vertical edge on the grid of 8 pairs, with its segments of 4 rows aligned. */
  predicate OnGrid(e: PairEdge, h: nat, w: nat) {
    VertFits(w, h, e.y, e.x) && e.x % 8 == 0 && e.y % 4 == 0
  }

  predicate OnGridHorz(e: PairEdge, h: nat, w: nat) {
    OnGrid(Turn(e), w, h)
  }

  /** Distinct edges share no rows, or are at least eight columns apart. */
  lemma GridApart(a: PairEdge, b: PairEdge, h: nat, w: nat)
    requires OnGrid(a, h, w) && OnGrid(b, h, w) && (a.y, a.x) != (b.y, b.x)
    ensures a.y + 4 <= b.y || b.y + 4 <= a.y || (a.y == b.y && (a.x + 8 <= b.x || b.x + 8 <= a.x))
  {
  }

  /** The four pairs of row i across an edge. */
  function Across(pic: PairPicture, w: nat, i: nat, x: nat): PairLine
    requires Rect(pic, w) && i < |pic| && 2 <= x && x + 2 <= w
  {
    PairLine(pic[i][x - 2], pic[i][x - 1], pic[i][x], pic[i][x + 1])
  }

  /** Calls at distinct edges do not see each other's writes. */
  lemma AcrossUnaffected(pic: PairPicture, a: PairEdge, b: PairEdge, w: nat, i: nat)
    requires Rect(pic, w) && OnGrid(a, |pic|, w) && OnGrid(b, |pic|, w) && (a.y, a.x) != (b.y, b.x)
    requires b.y <= i < b.y + 4
    ensures Across(ApplyVert(pic, w, a.y, a.x, a.p), w, i, b.x) == Across(pic, w, i, b.x)
  {
    GridApart(a, b, |pic|, w);
  }

  /** One pair after two calls. */
  lemma BothAt(pic: PairPicture, a: PairEdge, b: PairEdge, w: nat, i: nat, j: nat)
    requires Rect(pic, w) && OnGrid(a, |pic|, w) && OnGrid(b, |pic|, w) && (a.y, a.x) != (b.y, b.x)
    requires i < |pic| && j < w
    ensures ApplyVert(ApplyVert(pic, w, a.y, a.x, a.p), w, b.y, b.x, b.p)[i][j] ==
      if b.y <= i < b.y + 4 && (j == b.x - 1 || j == b.x) then ApplyVert(pic, w, b.y, b.x, b.p)[i][j]
      else ApplyVert(pic, w, a.y, a.x, a.p)[i][j]
  {
    if b.y <= i < b.y + 4 { AcrossUnaffected(pic, a, b, w, i); }
  }

  lemma Commute(pic: PairPicture, a: PairEdge, b: PairEdge, w: nat)
    requires Rect(pic, w) && OnGrid(a, |pic|, w) && OnGrid(b, |pic|, w) && (a.y, a.x) != (b.y, b.x)
    ensures ApplyVert(ApplyVert(pic, w, a.y, a.x, a.p), w, b.y, b.x, b.p)
         == ApplyVert(ApplyVert(pic, w, b.y, b.x, b.p), w, a.y, a.x, a.p)
  {
    var ab := ApplyVert(ApplyVert(pic, w, a.y, a.x, a.p), w, b.y, b.x, b.p);
    var ba := ApplyVert(ApplyVert(pic, w, b.y, b.x, b.p), w, a.y, a.x, a.p);
    forall i | 0 <= i < |pic|
      ensures ab[i] == ba[i]
    {
      forall j | 0 <= j < w
        ensures ab[i][j] == ba[i][j]
      {
        GridApart(a, b, |pic|, w);
        BothAt(pic, a, b, w, i, j);
        BothAt(pic, b, a, w, i, j);
      }
    }
  }

  lemma CommuteHorz(pic: PairPicture, a: PairEdge, b: PairEdge, w: nat)
    requires Rect(pic, w) && OnGridHorz(a, |pic|, w) && OnGridHorz(b, |pic|, w) && (a.y, a.x) != (b.y, b.x)
    ensures ApplyHorz(ApplyHorz(pic, w, a.y, a.x, a.p), w, b.y, b.x, b.p)
         == ApplyHorz(ApplyHorz(pic, w, b.y, b.x, b.p), w, a.y, a.x, a.p)
  {
    var t, h, ta, tb := Transposed(pic, w), |pic|, Turn(a), Turn(b);
    TransposedTwice(pic, w);
    HorzIsTransposedVert(t, h, ta.y, ta.x, a.p);
    HorzIsTransposedVert(t, h, tb.y, tb.x, b.p);
    HorzIsTransposedVert(ApplyVert(t, h, ta.y, ta.x, a.p), h, tb.y, tb.x, b.p);
    HorzIsTransposedVert(ApplyVert(t, h, tb.y, tb.x, b.p), h, ta.y, ta.x, a.p);
    Commute(t, ta, tb, h);
  }

  predicate Fits(e: PairEdge, h: nat, w: nat, vertical: bool) {
    if vertical then OnGrid(e, h, w) else OnGridHorz(e, h, w)
  }

  /** One call; anywhere but on the grid the picture is kept. */
  function Step(pic: PairPicture, e: PairEdge, w: nat, vertical: bool): PairPicture {
    if !Rect(pic, w) || !Fits(e, |pic|, w, vertical) then pic
    else if vertical then ApplyVert(pic, w, e.y, e.x, e.p)
    else ApplyHorz(pic, w, e.y, e.x, e.p)
  }

  /** What every list of edges of one direction needs, for chroma. */
  lemma StepsOrderly()
    ensures Orderly(Step)
  {
    forall pic, a, b, w, vertical | Position(a) != Position(b)
      ensures Step(Step(pic, a, w, vertical), b, w, vertical) == Step(Step(pic, b, w, vertical), a, w, vertical)
    {
      if Rect(pic, w) && Fits(a, |pic|, w, vertical) && Fits(b, |pic|, w, vertical) {
        if vertical { Commute(pic, a, b, w); } else { CommuteHorz(pic, a, b, w); }
      }
    }
    forall pic, e, w | Rect(pic, w)
      ensures var v := Step(pic, e, w, true);
        |v| == |pic| && Rect(v, w) && Transposed(v, w) == Step(Transposed(pic, w), Turn(e), |pic|, false)
    {
      if OnGrid(e, |pic|, w) { HorzIsTransposedVert(pic, w, e.y, e.x, e.p); }
    }
  }

  /** Calls at any list of edges of the grid are the steps of that list on the picture. */
  method FilterEdges(pic: array<int>, w: nat, h: nat, es: seq<PairEdge>, vertical: bool)
    requires At(0, 2 * w, h) <= pic.Length && AllBytes(pic[..])
    requires forall i | 0 <= i < |es| :: Fits(es[i], h, w, vertical)
    modifies pic
    ensures AllBytes(pic[..]) && KeptBeyond(pic[..], old(pic[..]), w, h)
    ensures PairsOf(pic[..], w, h) == Run(StepOf(Step, w, vertical), PairsOf(old(pic[..]), w, h), es)
  {
    ghost var f, all := StepOf(Step, w, vertical), Run(StepOf(Step, w, vertical), PairsOf(pic[..], w, h), es);
    for i := 0 to |es|
      invariant AllBytes(pic[..]) && KeptBeyond(pic[..], old(pic[..]), w, h)
      invariant all == Run(f, PairsOf(pic[..], w, h), es[i..])
    {
      ghost var was := PairsOf(pic[..], w, h);
      var e := es[i];
      if vertical {
        FilterVert(pic, w, h, e.y, e.x, e.p);
      } else {
        FilterHorz(pic, w, h, e.y, e.x, e.p);
      }
      assert f(was, e) == PairsOf(pic[..], w, h);
      assert es[i..][0] == e && es[i..][1..] == es[i + 1..];
    }
  }

  lemma {:induction false} PairOfIndex(w: nat, h: nat, i: nat) returns (y: nat, x: nat)
    requires i < At(0, 2 * w, h)
    ensures y < h && x < w && Pos(w, y, x) <= i <= Pos(w, y, x) + 1
  {
    if At(0, 2 * w, h - 1) <= i {
      y, x := h - 1, (i - At(0, 2 * w, h - 1)) / 2;
    } else {
      y, x := PairOfIndex(w, h - 1, i);
    }
  }

  /** A buffer is determined by the picture it holds and by what lies past the picture. */
  lemma PairsDetermine(s: seq<int>, u: seq<int>, w: nat, h: nat)
    requires At(0, 2 * w, h) <= |s| && KeptBeyond(u, s, w, h) && PairsOf(s, w, h) == PairsOf(u, w, h)
    ensures s == u
  {
    forall i | 0 <= i < |s|
      ensures s[i] == u[i]
    {
      if i < At(0, 2 * w, h) {
        var y, x := PairOfIndex(w, h, i);
        PosFits(w, h, y, x);
        assert PairsOf(s, w, h)[y][x] == PairsOf(u, w, h)[y][x];
      }
    }
  }

  /** Two buffers that start equal and are filtered at the same distinct edges, each in an order
      of its own, end equal. */
  method FilterInAnyOrder(a: array<int>, b: array<int>, w: nat, h: nat, es: seq<PairEdge>, fs: seq<PairEdge>,
                          vertical: bool)
    requires a != b && At(0, 2 * w, h) <= a.Length && AllBytes(a[..]) && b[..] == a[..]
    requires forall i | 0 <= i < |es| :: Fits(es[i], h, w, vertical)
    requires Distinct(es, Position) && multiset(es) == multiset(fs)
    modifies a, b
    ensures b[..] == a[..]
  {
    ghost var pic := PairsOf(a[..], w, h);
    forall i | 0 <= i < |fs|
      ensures Fits(fs[i], h, w, vertical)
    {
      assert fs[i] in multiset(fs);
      assert fs[i] in es;
    }
    FilterEdges(a, w, h, es, vertical);
    FilterEdges(b, w, h, fs, vertical);
    StepsOrderly();
    OrderIrrelevant(Step, pic, es, fs, w, vertical);
    PairsDetermine(a[..], b[..], w, h);
  }
}
