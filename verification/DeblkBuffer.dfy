/** A picture held row after row in one buffer: what the in-place luma functions do to the buffer
    is a step on the picture. */
module DeblkBuffer {
  import opened Common
  import opened DeblkFilter
  import opened DeblkLuma
  import opened DeblkOrder
  import opened Reorder

  /** Row y of a buffer of h rows of w samples. */
  function RowOf(s: seq<int>, w: nat, h: nat, y: nat): (row: seq<int>)
    requires |s| == At(0, w, h) && y < h
    ensures At(0, w, y) + w <= |s| && |row| == w
    ensures forall c | 0 <= c < w :: row[c] == s[At(0, w, y) + c]
  {
    AtGap(0, w, y, h);
    var i := At(0, w, y);
    seq(w, c requires 0 <= c < w => s[i + c])
  }

  function Rows(s: seq<int>, w: nat, h: nat): (pic: Picture)
    requires |s| == At(0, w, h)
    ensures |pic| == h && Rect(pic, w) && forall y | 0 <= y < h :: pic[y] == RowOf(s, w, h, y)
  {
    seq(h, y requires 0 <= y < h => RowOf(s, w, h, y))
  }

  lemma FourRows(w: nat, y: nat)
    ensures At(0, w, y + 1) == At(0, w, y) + w && At(0, w, y + 2) == At(0, w, y) + 2 * w
    ensures At(0, w, y + 3) == At(0, w, y) + 3 * w && At(0, w, y + 4) == At(0, w, y) + 4 * w
  {
    assert At(0, w, y + 2) == At(0, w, y + 1) + w;
  }

  // Vertical edges. The first Q sample of the edge is entry `at` of the buffer.

  predicate VertSpace(length: int, at: int, w: nat) {
    12 <= w && 4 <= at && at + 3 * w + 3 < length
  }

  lemma VertFits(w: nat, h: nat, e: LumaEdge)
    requires Inside(e, h, w)
    ensures VertSpace(At(0, w, h), At(0, w, e.y) + e.x, w)
  {
    FourRows(w, e.y);
    AtMono(0, w, e.y + 4, h);
  }

  lemma StartOfRow(w: nat, e: LumaEdge, k: nat)
    requires k < 4
    ensures Start(At(0, w, e.y) + e.x, w, k) == At(0, w, e.y + k) + e.x
  {
    FourRows(w, e.y);
  }

  predicate SameVert(pic: Picture, s: seq<int>, at: int, w: nat, e: LumaEdge, k: nat, t: int)
    requires Rect(pic, w) && Inside(e, |pic|, w) && VertSpace(|s|, at, w) && k < 4 && -4 <= t < 4
  {
    pic[e.y + k][e.x + t] == s[Start(at, w, k) + t]
  }

  /** The samples around the edge are the same in the picture and in the buffer. */
  ghost predicate AroundVert(pic: Picture, s: seq<int>, at: int, w: nat, e: LumaEdge)
    requires Rect(pic, w) && Inside(e, |pic|, w) && VertSpace(|s|, at, w)
  {
    forall k, t | 0 <= k < 4 && -4 <= t < 4 :: SameVert(pic, s, at, w, e, k, t)
  }

  lemma LineAround(pic: Picture, s: seq<int>, at: int, w: nat, e: LumaEdge, k: nat) returns (l: Line)
    requires Rect(pic, w) && Inside(e, |pic|, w) && VertSpace(|s|, at, w) && AroundVert(pic, s, at, w, e) && k < 4
    ensures LineAt(s, Start(at, w, k), 1) == l == RowLine(pic[e.y + k], e.x)
  {
    assert SameVert(pic, s, at, w, e, k, -4) && SameVert(pic, s, at, w, e, k, -3);
    assert SameVert(pic, s, at, w, e, k, -2) && SameVert(pic, s, at, w, e, k, -1);
    assert SameVert(pic, s, at, w, e, k, 0) && SameVert(pic, s, at, w, e, k, 1);
    assert SameVert(pic, s, at, w, e, k, 2) && SameVert(pic, s, at, w, e, k, 3);
    l := RowLine(pic[e.y + k], e.x);
  }

  lemma LinesVert(s: seq<int>, at: int, w: nat, l0: Line, l1: Line, l2: Line, l3: Line)
    requires VertSpace(|s|, at, w)
    requires LineAt(s, Start(at, w, 0), 1) == l0 && LineAt(s, Start(at, w, 1), 1) == l1
    requires LineAt(s, Start(at, w, 2), 1) == l2 && LineAt(s, Start(at, w, 3), 1) == l3
    ensures Lines(s, at, w, 1) == Four(l0, l1, l2, l3)
  {
  }

  lemma GatherVert(pic: Picture, e: LumaEdge, w: nat, l0: Line, l1: Line, l2: Line, l3: Line)
    requires Rect(pic, w) && Inside(e, |pic|, w)
    requires RowLine(pic[e.y], e.x) == l0 && RowLine(pic[e.y + 1], e.x) == l1
    requires RowLine(pic[e.y + 2], e.x) == l2 && RowLine(pic[e.y + 3], e.x) == l3
    ensures Gather(pic, e, w) == Four(l0, l1, l2, l3)
  {
  }

  lemma LinesAround(pic: Picture, s: seq<int>, at: int, w: nat, e: LumaEdge)
    requires Rect(pic, w) && Inside(e, |pic|, w) && VertSpace(|s|, at, w) && AroundVert(pic, s, at, w, e)
    ensures Lines(s, at, w, 1) == Gather(pic, e, w)
  {
    var l0 := LineAround(pic, s, at, w, e, 0);
    var l1 := LineAround(pic, s, at, w, e, 1);
    var l2 := LineAround(pic, s, at, w, e, 2);
    var l3 := LineAround(pic, s, at, w, e, 3);
    LinesVert(s, at, w, l0, l1, l2, l3);
    GatherVert(pic, e, w, l0, l1, l2, l3);
  }

  lemma AllSameVert(s: seq<int>, w: nat, h: nat, e: LumaEdge)
    requires |s| == At(0, w, h) && Inside(e, h, w)
    ensures VertSpace(|s|, At(0, w, e.y) + e.x, w) && AroundVert(Rows(s, w, h), s, At(0, w, e.y) + e.x, w, e)
  {
    VertFits(w, h, e);
    var pic, at := Rows(s, w, h), At(0, w, e.y) + e.x;
    forall k, t | 0 <= k < 4 && -4 <= t < 4
      ensures SameVert(pic, s, at, w, e, k, t)
    {
      StartOfRow(w, e, k);
      assert RowOf(s, w, h, e.y + k)[e.x + t] == s[At(0, w, e.y + k) + (e.x + t)];
    }
  }

  predicate TappedVert(u: seq<int>, at: int, w: nat, fs: Four, k: nat, t: int)
    requires VertSpace(|u|, at, w) && k < 4 && -3 <= t < 3
  {
    u[Start(at, w, k) + t] == Tap(fs.Nth(k), t)
  }

  /** u is s with the six samples of each line around the edge taken from fs. */
  ghost predicate WrittenVert(u: seq<int>, s: seq<int>, at: int, w: nat, fs: Four) {
    && |u| == |s| && VertSpace(|u|, at, w)
    && (forall k, t | 0 <= k < 4 && -3 <= t < 3 :: TappedVert(u, at, w, fs, k, t))
    && (forall i | 0 <= i < |s| && ApartVert(i, at, w) :: u[i] == s[i])
  }

  lemma TapOfLine(u: seq<int>, cur: int, tap: int, t: int)
    requires tap > 0 && 0 <= cur - 4 * tap && cur + 3 * tap < |u| && -3 <= t < 3
    ensures u[RowStart(cur, tap, t)] == Tap(LineAt(u, cur, tap), t)
  {
  }

  lemma LineOfLines(u: seq<int>, at: int, w: nat, k: nat)
    requires VertSpace(|u|, at, w) && k < 4
    ensures Lines(u, at, w, 1).Nth(k) == LineAt(u, Start(at, w, k), 1)
  {
  }

  lemma LinesWritten(u: seq<int>, s: seq<int>, at: int, w: nat, fs: Four)
    requires |u| == |s| && VertSpace(|u|, at, w) && Lines(u, at, w, 1) == fs
    requires forall i | 0 <= i < |s| && ApartVert(i, at, w) :: u[i] == s[i]
    ensures WrittenVert(u, s, at, w, fs)
  {
    forall k, t | 0 <= k < 4 && -3 <= t < 3
      ensures TappedVert(u, at, w, fs, k, t)
    {
      LineOfLines(u, at, w, k);
      TapOfLine(u, Start(at, w, k), 1, t);
    }
  }

  /** Column c of one of the four rows around the edge. */
  lemma NearVert(u: seq<int>, s: seq<int>, w: nat, h: nat, e: LumaEdge, fs: Four, k: nat, c: nat)
    requires |s| == At(0, w, h) && Inside(e, h, w) && k < 4 && c < w
    requires WrittenVert(u, s, At(0, w, e.y) + e.x, w, fs)
    ensures RowOf(u, w, h, e.y + k)[c] ==
      if e.x - 3 <= c < e.x + 3 then Tap(fs.Nth(k), c - e.x) else RowOf(s, w, h, e.y + k)[c]
  {
    var at := At(0, w, e.y) + e.x;
    StartOfRow(w, e, k);
    if e.x - 3 <= c < e.x + 3 {
      assert TappedVert(u, at, w, fs, k, c - e.x);
    } else {
      assert ApartVert(Start(at, w, k) + (c - e.x), at, w);
    }
  }

  /** Any other row. */
  lemma FarVert(u: seq<int>, s: seq<int>, w: nat, h: nat, e: LumaEdge, fs: Four, y: nat)
    requires |s| == At(0, w, h) && Inside(e, h, w) && y < h && !(e.y <= y < e.y + 4)
    requires WrittenVert(u, s, At(0, w, e.y) + e.x, w, fs)
    ensures RowOf(u, w, h, y) == RowOf(s, w, h, y)
  {
    FourRows(w, e.y);
    if y < e.y { AtGap(0, w, y, e.y); } else { AtMono(0, w, e.y + 4, y); }
    forall c | 0 <= c < w
      ensures RowOf(u, w, h, y)[c] == RowOf(s, w, h, y)[c]
    {
      assert ApartVert(At(0, w, y) + c, At(0, w, e.y) + e.x, w);
    }
  }

  lemma VertRow(u: seq<int>, s: seq<int>, w: nat, h: nat, e: LumaEdge, fs: Four, y: nat)
    requires |s| == At(0, w, h) && Inside(e, h, w) && y < h
    requires WrittenVert(u, s, At(0, w, e.y) + e.x, w, fs)
    ensures RowOf(u, w, h, y) == RowAfter(RowOf(s, w, h, y), y, e, fs)
  {
    if e.y <= y < e.y + 4 {
      var was, l := RowOf(s, w, h, y), fs.Nth(y - e.y);
      forall c | 0 <= c < w
        ensures RowOf(u, w, h, y)[c] == PutLine(was, e.x, l)[c]
      {
        PutLineSample(was, e.x, l, c);
        NearVert(u, s, w, h, e, fs, y - e.y, c);
      }
    } else {
      FarVert(u, s, w, h, e, fs, y);
    }
  }

  lemma VertAround(pic: Picture, s: seq<int>, u: seq<int>, at: int, w: nat, e: LumaEdge)
    requires Rect(pic, w) && Inside(e, |pic|, w) && |u| == |s| && VertSpace(|s|, at, w) && AroundVert(pic, s, at, w, e)
    requires Lines(u, at, w, 1) == Segment(Lines(s, at, w, 1), e.p)
    requires forall i | 0 <= i < |s| && ApartVert(i, at, w) :: u[i] == s[i]
    ensures WrittenVert(u, s, at, w, Segment(Gather(pic, e, w), e.p))
  {
    LinesAround(pic, s, at, w, e);
    LinesWritten(u, s, at, w, Lines(u, at, w, 1));
  }

  lemma VertWritten(s: seq<int>, u: seq<int>, w: nat, h: nat, e: LumaEdge)
    requires |s| == |u| == At(0, w, h) && Inside(e, h, w) && VertSpace(|s|, At(0, w, e.y) + e.x, w)
    requires var at := At(0, w, e.y) + e.x;
      && Lines(u, at, w, 1) == Segment(Lines(s, at, w, 1), e.p)
      && forall i | 0 <= i < |s| && ApartVert(i, at, w) :: u[i] == s[i]
    ensures WrittenVert(u, s, At(0, w, e.y) + e.x, w, Segment(Gather(Rows(s, w, h), e, w), e.p))
  {
    AllSameVert(s, w, h, e);
    VertAround(Rows(s, w, h), s, u, At(0, w, e.y) + e.x, w, e);
  }

  lemma VertStep(s: seq<int>, u: seq<int>, w: nat, h: nat, e: LumaEdge, fs: Four)
    requires |s| == |u| == At(0, w, h) && Inside(e, h, w) && fs == Segment(Gather(Rows(s, w, h), e, w), e.p)
    requires WrittenVert(u, s, At(0, w, e.y) + e.x, w, fs)
    ensures Rows(u, w, h) == ApplyVert(Rows(s, w, h), e, w)
  {
    var a, b := Rows(u, w, h), ApplyVert(Rows(s, w, h), e, w);
    forall y | 0 <= y < h
      ensures a[y] == b[y]
    {
      VertRow(u, s, w, h, e, fs, y);
    }
  }

  /** What ihevc_deblk_luma_vert does to the buffer is one step on the picture. */
  lemma VertCall(s: seq<int>, u: seq<int>, w: nat, h: nat, e: LumaEdge)
    requires |s| == |u| == At(0, w, h) && Inside(e, h, w) && VertSpace(|s|, At(0, w, e.y) + e.x, w)
    requires var at := At(0, w, e.y) + e.x;
      && Lines(u, at, w, 1) == Segment(Lines(s, at, w, 1), e.p)
      && forall i | 0 <= i < |s| && ApartVert(i, at, w) :: u[i] == s[i]
    ensures Rows(u, w, h) == ApplyVert(Rows(s, w, h), e, w)
  {
    VertWritten(s, u, w, h, e);
    VertStep(s, u, w, h, e, Segment(Gather(Rows(s, w, h), e, w), e.p));
  }

  // Horizontal edges.

  predicate HorzSpace(length: int, at: int, w: nat) {
    4 <= w && 4 * w <= at && at + 3 * w + 3 < length
  }

  lemma HorzFits(w: nat, h: nat, e: LumaEdge)
    requires Inside(Turn(e), w, h)
    ensures HorzSpace(At(0, w, h), At(0, w, e.y) + e.x, w)
  {
    FourRows(w, e.y - 4);
    FourRows(w, e.y);
    AtMono(0, w, e.y + 4, h);
  }

  /** i + t * w for the rows around an edge. */
  function RowStart(i: int, w: int, t: int): int
    requires -4 <= t < 4
  {
    if t == -4 then i - 4 * w else if t == -3 then i - 3 * w else if t == -2 then i - 2 * w
    else if t == -1 then i - w else if t == 0 then i else if t == 1 then i + w
    else if t == 2 then i + 2 * w else i + 3 * w
  }

  lemma RowNear(w: nat, y: nat, t: int)
    requires 8 <= y && -4 <= t < 4
    ensures At(0, w, y + t) == RowStart(At(0, w, y), w, t)
  {
    FourRows(w, y - 4);
    FourRows(w, y);
  }

  predicate SameHorz(pic: Picture, s: seq<int>, at: int, w: nat, e: LumaEdge, k: nat, t: int)
    requires Rect(pic, w) && Inside(Turn(e), w, |pic|) && HorzSpace(|s|, at, w) && k < 4 && -4 <= t < 4
  {
    pic[e.y + t][e.x + k] == s[RowStart(at + k, w, t)]
  }

  ghost predicate AroundHorz(pic: Picture, s: seq<int>, at: int, w: nat, e: LumaEdge)
    requires Rect(pic, w) && Inside(Turn(e), w, |pic|) && HorzSpace(|s|, at, w)
  {
    forall k, t | 0 <= k < 4 && -4 <= t < 4 :: SameHorz(pic, s, at, w, e, k, t)
  }

  lemma ColumnAround(pic: Picture, s: seq<int>, at: int, w: nat, e: LumaEdge, k: nat) returns (l: Line)
    requires Rect(pic, w) && Inside(Turn(e), w, |pic|) && HorzSpace(|s|, at, w) && AroundHorz(pic, s, at, w, e) && k < 4
    ensures LineAt(s, at + k, w) == l == ColumnLine(pic, w, e.y, e.x + k)
  {
    assert SameHorz(pic, s, at, w, e, k, -4) && SameHorz(pic, s, at, w, e, k, -3);
    assert SameHorz(pic, s, at, w, e, k, -2) && SameHorz(pic, s, at, w, e, k, -1);
    assert SameHorz(pic, s, at, w, e, k, 0) && SameHorz(pic, s, at, w, e, k, 1);
    assert SameHorz(pic, s, at, w, e, k, 2) && SameHorz(pic, s, at, w, e, k, 3);
    l := ColumnLine(pic, w, e.y, e.x + k);
  }

  lemma LinesHorz(s: seq<int>, at: int, w: nat, l0: Line, l1: Line, l2: Line, l3: Line)
    requires HorzSpace(|s|, at, w)
    requires LineAt(s, at, w) == l0 && LineAt(s, at + 1, w) == l1
    requires LineAt(s, at + 2, w) == l2 && LineAt(s, at + 3, w) == l3
    ensures Lines(s, at, 1, w) == Four(l0, l1, l2, l3)
  {
  }

  lemma GatherFour(pic: Picture, e: LumaEdge, w: nat, l0: Line, l1: Line, l2: Line, l3: Line)
    requires Rect(pic, w) && Inside(Turn(e), w, |pic|)
    requires ColumnLine(pic, w, e.y, e.x) == l0 && ColumnLine(pic, w, e.y, e.x + 1) == l1
    requires ColumnLine(pic, w, e.y, e.x + 2) == l2 && ColumnLine(pic, w, e.y, e.x + 3) == l3
    ensures GatherHorz(pic, e, w) == Four(l0, l1, l2, l3)
  {
  }

  lemma ColumnsAround(pic: Picture, s: seq<int>, at: int, w: nat, e: LumaEdge)
    requires Rect(pic, w) && Inside(Turn(e), w, |pic|) && HorzSpace(|s|, at, w) && AroundHorz(pic, s, at, w, e)
    ensures Lines(s, at, 1, w) == GatherHorz(pic, e, w)
  {
    var l0 := ColumnAround(pic, s, at, w, e, 0);
    var l1 := ColumnAround(pic, s, at, w, e, 1);
    var l2 := ColumnAround(pic, s, at, w, e, 2);
    var l3 := ColumnAround(pic, s, at, w, e, 3);
    LinesHorz(s, at, w, l0, l1, l2, l3);
    GatherFour(pic, e, w, l0, l1, l2, l3);
  }

  lemma SampleNear(s: seq<int>, w: nat, h: nat, e: LumaEdge, k: nat, t: int)
    requires |s| == At(0, w, h) && Inside(Turn(e), w, h) && k < 4 && -4 <= t < 4
    requires HorzSpace(|s|, At(0, w, e.y) + e.x, w)
    ensures SameHorz(Rows(s, w, h), s, At(0, w, e.y) + e.x, w, e, k, t)
  {
    RowNear(w, e.y, t);
    assert RowOf(s, w, h, e.y + t)[e.x + k] == s[At(0, w, e.y + t) + (e.x + k)];
  }

  lemma AllSameHorz(s: seq<int>, w: nat, h: nat, e: LumaEdge)
    requires |s| == At(0, w, h) && Inside(Turn(e), w, h)
    ensures HorzSpace(|s|, At(0, w, e.y) + e.x, w) && AroundHorz(Rows(s, w, h), s, At(0, w, e.y) + e.x, w, e)
  {
    HorzFits(w, h, e);
    var pic, at := Rows(s, w, h), At(0, w, e.y) + e.x;
    forall k, t | 0 <= k < 4 && -4 <= t < 4
      ensures SameHorz(pic, s, at, w, e, k, t)
    {
      SampleNear(s, w, h, e, k, t);
    }
  }

  predicate TappedHorz(u: seq<int>, at: int, w: nat, fs: Four, k: nat, t: int)
    requires HorzSpace(|u|, at, w) && k < 4 && -3 <= t < 3
  {
    u[RowStart(at + k, w, t)] == Tap(fs.Nth(k), t)
  }

  ghost predicate WrittenHorz(u: seq<int>, s: seq<int>, at: int, w: nat, fs: Four) {
    && |u| == |s| && HorzSpace(|u|, at, w)
    && (forall k, t | 0 <= k < 4 && -3 <= t < 3 :: TappedHorz(u, at, w, fs, k, t))
    && (forall i | 0 <= i < |s| && ApartHorz(i, at, w) :: u[i] == s[i])
  }

  lemma ColumnOfLines(u: seq<int>, at: int, w: nat, k: nat)
    requires HorzSpace(|u|, at, w) && k < 4
    ensures Lines(u, at, 1, w).Nth(k) == LineAt(u, at + k, w)
  {
  }

  lemma ColumnsWritten(u: seq<int>, s: seq<int>, at: int, w: nat, fs: Four)
    requires |u| == |s| && HorzSpace(|u|, at, w) && Lines(u, at, 1, w) == fs
    requires forall i | 0 <= i < |s| && ApartHorz(i, at, w) :: u[i] == s[i]
    ensures WrittenHorz(u, s, at, w, fs)
  {
    forall k, t | 0 <= k < 4 && -3 <= t < 3
      ensures TappedHorz(u, at, w, fs, k, t)
    {
      ColumnOfLines(u, at, w, k);
      TapOfLine(u, at + k, w, t);
    }
  }

  /** Beside the columns of the edge no row is written. */
  lemma BesideHorz(at: int, w: nat, c: int, t: int)
    requires 4 <= w && -3 <= t < 3 && !(0 <= c < 4) && 4 <= c + w && c < w
    ensures ApartHorz(RowStart(at, w, t) + c, at, w)
  {
  }

  lemma NearHorz(u: seq<int>, s: seq<int>, w: nat, h: nat, e: LumaEdge, fs: Four, t: int, x: nat)
    requires |s| == At(0, w, h) && Inside(Turn(e), w, h) && -3 <= t < 3 && x < w
    requires WrittenHorz(u, s, At(0, w, e.y) + e.x, w, fs)
    ensures RowOf(u, w, h, e.y + t)[x] ==
      if e.x <= x < e.x + 4 then Tap(fs.Nth(x - e.x), t) else RowOf(s, w, h, e.y + t)[x]
  {
    var at := At(0, w, e.y) + e.x;
    PointNear(w, e, t, x);
    if e.x <= x < e.x + 4 {
      assert TappedHorz(u, at, w, fs, x - e.x, t);
    }
  }

  /** Where sample x of a row near the edge lies. */
  lemma PointNear(w: nat, e: LumaEdge, t: int, x: nat)
    requires 8 <= e.y && -3 <= t < 3 && x < w && 4 <= w && e.x + 4 <= w
    ensures var at, i := At(0, w, e.y) + e.x, At(0, w, e.y + t) + x;
      if e.x <= x < e.x + 4 then i == RowStart(at + (x - e.x), w, t) else ApartHorz(i, at, w)
  {
    var at, c := At(0, w, e.y) + e.x, x - e.x;
    RowNear(w, e.y, t);
    if !(0 <= c < 4) { BesideHorz(at, w, c, t); }
  }

  lemma ApartRow(w: nat, e: LumaEdge, y: nat, x: nat)
    requires e.x + 4 <= w && 8 <= e.y && x < w && !(e.y - 3 <= y < e.y + 3)
    ensures ApartHorz(At(0, w, y) + x, At(0, w, e.y) + e.x, w)
  {
    RowNear(w, e.y, -3);
    RowNear(w, e.y, 3);
    if y < e.y - 3 {
      AtGap(0, w, y, e.y - 3);
    } else {
      AtMono(0, w, e.y + 3, y);
    }
  }

  lemma HorzSample(u: seq<int>, s: seq<int>, w: nat, h: nat, e: LumaEdge, fs: Four, y: nat, x: nat)
    requires |s| == At(0, w, h) && Inside(Turn(e), w, h) && y < h && x < w
    requires WrittenHorz(u, s, At(0, w, e.y) + e.x, w, fs)
    ensures RowOf(u, w, h, y)[x] == if e.x <= x < e.x + 4 && e.y - 3 <= y < e.y + 3
                                    then Tap(fs.Nth(x - e.x), y - e.y) else RowOf(s, w, h, y)[x]
  {
    if e.y - 3 <= y < e.y + 3 {
      NearHorz(u, s, w, h, e, fs, y - e.y, x);
    } else {
      ApartRow(w, e, y, x);
    }
  }

  lemma HorzAround(pic: Picture, s: seq<int>, u: seq<int>, at: int, w: nat, e: LumaEdge)
    requires Rect(pic, w) && Inside(Turn(e), w, |pic|) && |u| == |s|
    requires HorzSpace(|s|, at, w) && AroundHorz(pic, s, at, w, e)
    requires Lines(u, at, 1, w) == Segment(Lines(s, at, 1, w), e.p)
    requires forall i | 0 <= i < |s| && ApartHorz(i, at, w) :: u[i] == s[i]
    ensures WrittenHorz(u, s, at, w, Segment(GatherHorz(pic, e, w), e.p))
  {
    ColumnsAround(pic, s, at, w, e);
    ColumnsWritten(u, s, at, w, Lines(u, at, 1, w));
  }

  lemma HorzWritten(s: seq<int>, u: seq<int>, w: nat, h: nat, e: LumaEdge)
    requires |s| == |u| == At(0, w, h) && Inside(Turn(e), w, h) && HorzSpace(|s|, At(0, w, e.y) + e.x, w)
    requires var at := At(0, w, e.y) + e.x;
      && Lines(u, at, 1, w) == Segment(Lines(s, at, 1, w), e.p)
      && forall i | 0 <= i < |s| && ApartHorz(i, at, w) :: u[i] == s[i]
    ensures WrittenHorz(u, s, At(0, w, e.y) + e.x, w, Segment(GatherHorz(Rows(s, w, h), e, w), e.p))
  {
    AllSameHorz(s, w, h, e);
    HorzAround(Rows(s, w, h), s, u, At(0, w, e.y) + e.x, w, e);
  }

  lemma HorzStep(s: seq<int>, u: seq<int>, w: nat, h: nat, e: LumaEdge, fs: Four)
    requires |s| == |u| == At(0, w, h) && Inside(Turn(e), w, h)
    requires fs == Segment(GatherHorz(Rows(s, w, h), e, w), e.p)
    requires WrittenHorz(u, s, At(0, w, e.y) + e.x, w, fs)
    ensures Rows(u, w, h) == ApplyHorz(Rows(s, w, h), e, w)
  {
    var a, b := Rows(u, w, h), ApplyHorz(Rows(s, w, h), e, w);
    forall y | 0 <= y < h
      ensures a[y] == b[y]
    {
      HorzRow(u, s, w, h, e, fs, y);
    }
  }

  lemma HorzRow(u: seq<int>, s: seq<int>, w: nat, h: nat, e: LumaEdge, fs: Four, y: nat)
    requires |s| == At(0, w, h) && Inside(Turn(e), w, h) && y < h
    requires WrittenHorz(u, s, At(0, w, e.y) + e.x, w, fs)
    ensures RowOf(u, w, h, y) == RowAfterHorz(RowOf(s, w, h, y), y, e, fs, w)
  {
    forall x | 0 <= x < w
      ensures RowOf(u, w, h, y)[x] == RowAfterHorz(RowOf(s, w, h, y), y, e, fs, w)[x]
    {
      HorzSample(u, s, w, h, e, fs, y, x);
    }
  }

  /** What ihevc_deblk_luma_horz does to the buffer is one step on the picture as well. */
  lemma HorzCall(s: seq<int>, u: seq<int>, w: nat, h: nat, e: LumaEdge)
    requires |s| == |u| == At(0, w, h) && Inside(Turn(e), w, h) && HorzSpace(|s|, At(0, w, e.y) + e.x, w)
    requires var at := At(0, w, e.y) + e.x;
      && Lines(u, at, 1, w) == Segment(Lines(s, at, 1, w), e.p)
      && forall i | 0 <= i < |s| && ApartHorz(i, at, w) :: u[i] == s[i]
    ensures Rows(u, w, h) == ApplyHorz(Rows(s, w, h), e, w)
  {
    HorzWritten(s, u, w, h, e);
    HorzStep(s, u, w, h, e, Segment(GatherHorz(Rows(s, w, h), e, w), e.p));
  }
}
