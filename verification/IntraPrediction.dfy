/** The intra prediction functions for interleaved chroma, 8-bit and high bit depth, against
    IntraSpec. Strides and offsets count U/V pairs. */
module IntraPrediction {
  import opened Common
  import opened IntraSubstitution
  import opened IntraSpec

  // Writing a block.

  /** A block of nt rows of nt pairs lies in a buffer, and its rows do not overlap. */
  predicate Fits(length: nat, off: nat, strd: nat, nt: nat) {
    nt > 0 && nt <= strd && At(off, strd, nt - 1) + nt <= length
  }

  function Spot(off: nat, strd: nat, y: nat, x: nat): nat { At(off, strd, y) + x }

  ghost predicate OnBlock(i: nat, off: nat, strd: nat, nt: nat) {
    exists y, x | 0 <= y < nt && 0 <= x < nt :: Spot(off, strd, y, x) == i
  }

  lemma SpotFits(length: nat, off: nat, strd: nat, nt: nat, y: nat, x: nat)
    requires Fits(length, off, strd, nt) && y < nt && x < nt
    ensures Spot(off, strd, y, x) < length
  {
    AtMono(off, strd, y, nt - 1);
  }

  lemma SpotsDistinct(off: nat, strd: nat, nt: nat, y: nat, x: nat, y': nat, x': nat)
    requires nt <= strd && y < nt && x < nt && y' < nt && x' < nt && Spot(off, strd, y, x) == Spot(off, strd, y', x')
    ensures y == y' && x == x'
  {
    if y < y' { AtGap(off, strd, y, y'); } else if y' < y { AtGap(off, strd, y', y); }
  }

  /** The loops have passed (y, x): `outer` whole rows (columns) and `inner` samples of the next. */
  predicate Done(byRow: bool, outer: nat, inner: nat, y: nat, x: nat) {
    if byRow then y < outer || (y == outer && x < inner) else x < outer || (x == outer && y < inner)
  }

  /** A block to be predicted: the old destination, where the block lies in it, the reference,
      and whether the loops run over rows or over columns first. */
  datatype Job = Job(was: seq<UV>, off: nat, strd: nat, p: seq<UV>, nt: nat, mode: nat, byRow: bool) {
    predicate Valid() {
      IsReference(p, nt) && mode <= 34 && Fits(|was|, off, strd, nt)
    }

    function At(y: nat, x: nat): nat { Spot(off, strd, y, x) }

    function Want(y: nat, x: nat): UV
      requires Valid() && y < nt && x < nt
    {
      Sample(p, nt, mode, y, x)
    }
  }

  /** Done samples are predicted; the others, and everything outside the block, are as before. */
  ghost predicate Painted(out: seq<UV>, b: Job, outer: nat, inner: nat)
    requires b.Valid()
  {
    && |out| == |b.was|
    && (forall y, x | 0 <= y < b.nt && 0 <= x < b.nt ::
          && b.At(y, x) < |out|
          && out[b.At(y, x)] == if Done(b.byRow, outer, inner, y, x) then b.Want(y, x) else b.was[b.At(y, x)])
    && (forall i | 0 <= i < |out| && !OnBlock(i, b.off, b.strd, b.nt) :: out[i] == b.was[i])
  }

  /** The whole block is predicted and nothing else has changed. */
  ghost predicate Predicted(out: seq<UV>, was: seq<UV>, off: nat, strd: nat, p: seq<UV>, nt: nat, mode: nat)
    requires IsReference(p, nt) && mode <= 34 && Fits(|was|, off, strd, nt)
  {
    Painted(out, Job(was, off, strd, p, nt, mode, true), nt, 0)
  }

  lemma PaintNothing(b: Job)
    requires b.Valid()
    ensures Painted(b.was, b, 0, 0)
  {
    forall y, x | 0 <= y < b.nt && 0 <= x < b.nt
      ensures b.At(y, x) < |b.was|
    {
      SpotFits(|b.was|, b.off, b.strd, b.nt, y, x);
    }
  }

  lemma PaintStep(out: seq<UV>, u: seq<UV>, b: Job, outer: nat, inner: nat, y: nat, x: nat)
    requires b.Valid() && Painted(out, b, outer, inner) && outer < b.nt && inner < b.nt
    requires y == (if b.byRow then outer else inner) && x == (if b.byRow then inner else outer)
    requires b.At(y, x) < |out| && u == out[b.At(y, x) := b.Want(y, x)]
    ensures Painted(u, b, outer, inner + 1)
  {
    forall y', x' | 0 <= y' < b.nt && 0 <= x' < b.nt
      ensures u[b.At(y', x')] == if Done(b.byRow, outer, inner + 1, y', x') then b.Want(y', x') else b.was[b.At(y', x')]
    {
      if b.At(y', x') == b.At(y, x) { SpotsDistinct(b.off, b.strd, b.nt, y', x', y, x); }
    }
    assert OnBlock(b.At(y, x), b.off, b.strd, b.nt);
  }

  /** Stores one sample. */
  method Put(dst: array<UV>, to: nat, value: UV,
             ghost b: Job, ghost outer: nat, ghost inner: nat, ghost y: nat, ghost x: nat)
    requires b.Valid() && Painted(dst[..], b, outer, inner) && outer < b.nt && inner < b.nt
    requires y == (if b.byRow then outer else inner) && x == (if b.byRow then inner else outer)
    requires to == b.At(y, x) && value == b.Want(y, x)
    modifies dst
    ensures Painted(dst[..], b, outer, inner + 1)
  {
    SpotFits(dst.Length, b.off, b.strd, b.nt, y, x);
    ghost var out := dst[..];
    dst[to] := value;
    PaintStep(out, dst[..], b, outer, inner, y, x);
  }

  lemma PaintRow(out: seq<UV>, b: Job, outer: nat)
    requires b.Valid() && Painted(out, b, outer, b.nt)
    ensures Painted(out, b, outer + 1, 0)
  {
  }

  /** Rows first or columns first: the same block. */
  lemma PaintAll(out: seq<UV>, b: Job)
    requires b.Valid() && Painted(out, b, b.nt, 0)
    ensures Predicted(out, b.was, b.off, b.strd, b.p, b.nt, b.mode)
  {
    var c := b.(byRow := true);
    forall y, x | 0 <= y < b.nt && 0 <= x < b.nt
      ensures c.At(y, x) < |out| && out[c.At(y, x)] == c.Want(y, x)
    {
      assert c.At(y, x) == b.At(y, x);
    }
  }

  /** The outcome is determined: no loop order or scratch content can make a difference. */
  lemma PredictedUnique(out: seq<UV>, out': seq<UV>, was: seq<UV>, off: nat, strd: nat, p: seq<UV>, nt: nat, mode: nat)
    requires IsReference(p, nt) && mode <= 34 && Fits(|was|, off, strd, nt)
    requires Predicted(out, was, off, strd, p, nt, mode) && Predicted(out', was, off, strd, p, nt, mode)
    ensures out == out'
  {
    var b := Job(was, off, strd, p, nt, mode, true);
    forall i | 0 <= i < |out|
      ensures out[i] == out'[i]
    {
      if OnBlock(i, off, strd, nt) {
        var y, x :| 0 <= y < nt && 0 <= x < nt && Spot(off, strd, y, x) == i;
        assert out[b.At(y, x)] == out'[b.At(y, x)];
      }
    }
  }

  // Planar, DC and the pure directions.

  /** One component of one sample. */
  method PlanarComponent(nt: nat, log2nt: nat, l: int, tr: int, t: int, bl: int, row: nat, col: nat) returns (s: int)
    requires IsSize(nt) && row < nt && col < nt && log2nt == Log2(nt)
    ensures s == PlanarSample(nt, l, tr, t, bl, row, col)
  {
    s := Shr((nt - 1 - col) * l + (col + 1) * tr + (nt - 1 - row) * t + (row + 1) * bl + nt, log2nt + 1);
  }

  /** Both components of one sample. */
  method PlanarPair(refs: array<UV>, nt: nat, log2nt: nat, row: nat, col: nat) returns (value: UV)
    requires IsSize(nt) && refs.Length >= 4 * nt + 1 && row < nt && col < nt && log2nt == Log2(nt)
    ensures value == Planar(refs[..4 * nt + 1], nt, row, col)
  {
    var l, tr, t, bl := refs[2 * nt - 1 - row], refs[3 * nt + 1], refs[2 * nt + 1 + col], refs[nt - 1];
    var u := PlanarComponent(nt, log2nt, l.u, tr.u, t.u, bl.u, row, col);
    var v := PlanarComponent(nt, log2nt, l.v, tr.v, t.v, bl.v, row, col);
    return UV(u, v);
  }

  method PlanarPrediction(refs: array<UV>, dst: array<UV>, off: nat, strd: nat, nt: nat)
    requires IsSize(nt) && refs != dst && refs.Length >= 4 * nt + 1 && Fits(dst.Length, off, strd, nt)
    modifies dst
    ensures Predicted(dst[..], old(dst[..]), off, strd, refs[..4 * nt + 1], nt, 0)
  {
    ghost var p := refs[..4 * nt + 1];
    var log2nt := 5;
    if nt == 16 { log2nt := 4; } else if nt == 8 { log2nt := 3; } else if nt == 4 { log2nt := 2; }
    ghost var b := Job(dst[..], off, strd, p, nt, 0, true);
    PaintNothing(b);
    for row := 0 to nt
      invariant Painted(dst[..], b, row, 0)
    {
      for col := 0 to nt
        invariant Painted(dst[..], b, row, col)
      {
        var value := PlanarPair(refs, nt, log2nt, row, col);
        Put(dst, At(off, strd, row) + col, value, b, row, col, row, col);
      }
      PaintRow(dst[..], b, row);
    }
  }

  /** The sum of a stretch of the reference. */
  function Stretch(p: seq<UV>, from: nat, to: nat): UV
    requires from <= to <= |p|
    decreases |p| - from
  {
    if from == to then UV(0, 0) else Plus(p[from], Stretch(p, from + 1, to))
  }

  lemma {:induction false} StretchAppend(p: seq<UV>, from: nat, to: nat)
    requires from <= to < |p|
    ensures Stretch(p, from, to + 1) == Plus(Stretch(p, from, to), p[to])
    decreases |p| - from
  {
    if from < to {
      StretchAppend(p, from + 1, to);
      assert Stretch(p, from, to + 1) == Plus(p[from], Stretch(p, from + 1, to + 1));
    } else {
      assert Stretch(p, to + 1, to + 1) == UV(0, 0);
    }
  }

  /** Summing the left column upwards and then the top row is summing both outwards. */
  lemma {:induction false} StretchesAreEdges(p: seq<UV>, nt: nat, n: nat)
    requires IsReference(p, nt) && n <= nt
    ensures Plus(Stretch(p, 2 * nt - n, 2 * nt), Stretch(p, 2 * nt + 1, 2 * nt + 1 + n)) == EdgeSum(p, nt, n)
  {
    if n > 0 {
      StretchesAreEdges(p, nt, n - 1);
      StretchAppend(p, 2 * nt + 1, 2 * nt + n);
    }
  }

  method DcPrediction(refs: array<UV>, dst: array<UV>, off: nat, strd: nat, nt: nat)
    requires IsSize(nt) && refs != dst && refs.Length >= 4 * nt + 1 && Fits(dst.Length, off, strd, nt)
    modifies dst
    ensures Predicted(dst[..], old(dst[..]), off, strd, refs[..4 * nt + 1], nt, 1)
  {
    ghost var p := refs[..4 * nt + 1];
    var log2nt := 5;
    if nt == 32 { log2nt := 5; } else if nt == 16 { log2nt := 4; }
    else if nt == 8 { log2nt := 3; } else if nt == 4 { log2nt := 2; }
    ghost var b := Job(dst[..], off, strd, p, nt, 1, true);
    PaintNothing(b);
    var accU, accV := 0, 0;
    for i := nt to 2 * nt
      invariant dst[..] == b.was && UV(accU, accV) == Stretch(p, nt, i)
    {
      StretchAppend(p, nt, i);
      accU, accV := accU + refs[i].u, accV + refs[i].v;
    }
    for i := 2 * nt + 1 to 3 * nt + 1
      invariant dst[..] == b.was && UV(accU, accV) == Plus(Stretch(p, nt, 2 * nt), Stretch(p, 2 * nt + 1, i))
    {
      StretchAppend(p, 2 * nt + 1, i);
      accU, accV := accU + refs[i].u, accV + refs[i].v;
    }
    StretchesAreEdges(p, nt, nt);
    var dc := UV(Shr(accU + nt, log2nt + 1), Shr(accV + nt, log2nt + 1));
    assert dc == Dc(p, nt);
    for row := 0 to nt
      invariant Painted(dst[..], b, row, 0)
    {
      for col := 0 to nt
        invariant Painted(dst[..], b, row, col)
      {
        Put(dst, At(off, strd, row) + col, dc, b, row, col, row, col);
      }
      PaintRow(dst[..], b, row);
    }
  }

  lemma NoDisplacement(mode: nat, t: nat)
    requires mode == 10 || mode == 26
    ensures Idx(Angle(mode), t) == 0 && Fract(Angle(mode), t) == 0
  {
    IdxBounds(Angle(mode), t);
  }

  lemma OnWholeSamples(p: seq<UV>, nt: nat, mode: nat, s: nat, t: nat)
    requires IsReference(p, nt) && IsAngular(mode) && s < nt && t < nt && Fract(Angle(mode), t) == 0
    requires 0 <= s + Idx(Angle(mode), t) + 1 <= 2 * nt
    ensures Projected(p, nt, mode, s, t) == Edge(p, nt, mode >= 18, s + Idx(Angle(mode), t) + 1)
  {
  }

  /** With angle 0 the edge is copied straight across. */
  lemma StraightSample(p: seq<UV>, nt: nat, mode: nat, s: nat, t: nat)
    requires IsReference(p, nt) && (mode == 10 || mode == 26) && s < nt && t < nt
    ensures Projected(p, nt, mode, s, t) == Edge(p, nt, mode >= 18, s + 1)
  {
    NoDisplacement(mode, t);
    OnWholeSamples(p, nt, mode, s, t);
  }

  method Horizontal(refs: array<UV>, dst: array<UV>, off: nat, strd: nat, nt: nat)
    requires IsSize(nt) && refs != dst && refs.Length >= 4 * nt + 1 && Fits(dst.Length, off, strd, nt)
    modifies dst
    ensures Predicted(dst[..], old(dst[..]), off, strd, refs[..4 * nt + 1], nt, 10)
  {
    ghost var p := refs[..4 * nt + 1];
    ghost var b := Job(dst[..], off, strd, p, nt, 10, true);
    PaintNothing(b);
    for row := 0 to nt
      invariant Painted(dst[..], b, row, 0)
    {
      for col := 0 to nt
        invariant Painted(dst[..], b, row, col)
      {
        StraightSample(p, nt, 10, row, col);
        Put(dst, At(off, strd, row) + col, refs[2 * nt - 1 - row], b, row, col, row, col);
      }
      PaintRow(dst[..], b, row);
    }
  }

  method Vertical(refs: array<UV>, dst: array<UV>, off: nat, strd: nat, nt: nat)
    requires IsSize(nt) && refs != dst && refs.Length >= 4 * nt + 1 && Fits(dst.Length, off, strd, nt)
    modifies dst
    ensures Predicted(dst[..], old(dst[..]), off, strd, refs[..4 * nt + 1], nt, 26)
  {
    ghost var p := refs[..4 * nt + 1];
    ghost var b := Job(dst[..], off, strd, p, nt, 26, true);
    PaintNothing(b);
    for row := 0 to nt
      invariant Painted(dst[..], b, row, 0)
    {
      for col := 0 to nt
        invariant Painted(dst[..], b, row, col)
      {
        StraightSample(p, nt, 26, col, row);
        Put(dst, At(off, strd, row) + col, refs[2 * nt + 1 + col], b, row, col, row, col);
      }
      PaintRow(dst[..], b, row);
    }
  }

  // Diagonals.

  lemma Mode2Sample(p: seq<UV>, nt: nat, mode: nat, y: nat, x: nat)
    requires IsReference(p, nt) && mode == 2 && y < nt && x < nt
    ensures Sample(p, nt, mode, y, x) == p[2 * nt - y - x - 2]
  {
    IdxBounds(Angle(mode), x);
  }

  lemma Mode34Sample(p: seq<UV>, nt: nat, mode: nat, y: nat, x: nat)
    requires IsReference(p, nt) && mode == 34 && y < nt && x < nt
    ensures Sample(p, nt, mode, y, x) == p[2 * nt + x + y + 2]
  {
    IdxBounds(Angle(mode), y);
  }

  /** One sample of mode 2, on the diagonal up from the left column. */
  method OnDiagonal(refs: array<UV>, nt: nat, row: nat, idx: nat, ghost col: nat) returns (value: UV)
    requires IsSize(nt) && refs.Length >= 4 * nt + 1 && row < nt && col < nt && idx == col + 1
    ensures value == Sample(refs[..4 * nt + 1], nt, 2, row, col)
  {
    Mode2Sample(refs[..4 * nt + 1], nt, 2, row, col);
    return refs[2 * nt - row - idx - 1];
  }

  method Mode2(refs: array<UV>, dst: array<UV>, off: nat, strd: nat, nt: nat)
    requires IsSize(nt) && refs != dst && refs.Length >= 4 * nt + 1 && Fits(dst.Length, off, strd, nt)
    modifies dst
    ensures Predicted(dst[..], old(dst[..]), off, strd, refs[..4 * nt + 1], nt, 2)
  {
    ghost var p := refs[..4 * nt + 1];
    ghost var b := Job(dst[..], off, strd, p, nt, 2, false);
    PaintNothing(b);
    for col := 0 to nt
      invariant Painted(dst[..], b, col, 0)
    {
      var idx := ((col + 1) * 32) / 32;
      for row := 0 to nt
        invariant Painted(dst[..], b, col, row)
      {
        var value := OnDiagonal(refs, nt, row, idx, col);
        Put(dst, At(off, strd, row) + col, value, b, col, row, row, col);
      }
      PaintRow(dst[..], b, col);
    }
    PaintAll(dst[..], b);
  }

  method Mode18And34(refs: array<UV>, dst: array<UV>, off: nat, strd: nat, nt: nat, mode: nat)
    requires IsSize(nt) && refs != dst && refs.Length >= 4 * nt + 1 && Fits(dst.Length, off, strd, nt)
    requires mode == 18 || mode == 34
    modifies dst
    ensures Predicted(dst[..], old(dst[..]), off, strd, refs[..4 * nt + 1], nt, mode)
  {
    ghost var p := refs[..4 * nt + 1];
    var angle := if mode == 18 then -32 else 32;
    ghost var b := Job(dst[..], off, strd, p, nt, mode, true);
    PaintNothing(b);
    for row := 0 to nt
      invariant Painted(dst[..], b, row, 0)
    {
      var idx := ((row + 1) * angle) / 32;
      assert idx == if mode == 18 then -(row + 1) else row + 1;
      for col := 0 to nt
        invariant Painted(dst[..], b, row, col)
      {
        if mode == 18 { Diagonal(p, nt, row, col); } else { Mode34Sample(p, nt, 34, row, col); }
        Put(dst, At(off, strd, row) + col, refs[2 * nt + col + idx + 1], b, row, col, row, col);
      }
      PaintRow(dst[..], b, row);
    }
  }

  // Interpolated directions.

  /** Between whole samples and on them alike: the second sample has weight zero on them, and is
      still inside the reference. */
  lemma PositiveSample(p: seq<UV>, nt: nat, mode: nat, s: nat, t: nat)
    requires IsReference(p, nt) && (3 <= mode <= 9 || 27 <= mode <= 33) && s < nt && t < nt
    ensures var a := Angle(mode); var k := s + Idx(a, t) + 1;
      0 <= k && k + 1 <= 2 * nt &&
      Projected(p, nt, mode, s, t) == Mix(Edge(p, nt, mode >= 18, k), Edge(p, nt, mode >= 18, k + 1), Fract(a, t))
  {
    var a := Angle(mode);
    IdxBounds(a, t);
    var k := s + Idx(a, t) + 1;
    MixZero(Edge(p, nt, mode >= 18, k), Edge(p, nt, mode >= 18, k + 1));
  }

  /** Between two samples, in 32nds. */
  method Interpolate(a: UV, b: UV, fract: nat) returns (value: UV)
    ensures value == Mix(a, b, fract)
  {
    value := UV(((32 - fract) * a.u + fract * b.u + 16) / 32, ((32 - fract) * a.v + fract * b.v + 16) / 32);
  }

  /** Whole samples and 32nds at distance t + 1 from the edge. */
  method Displace(angle: int, t: nat) returns (idx: int, fract: nat)
    ensures idx == Idx(angle, t) && fract == Fract(angle, t)
  {
    var pos := (t + 1) * angle;
    TimesIs(t + 1, angle);
    return pos / 32, pos % 32;
  }

  /** One sample from the left column, idx and fract to the left of it. */
  method FromLeft(refs: array<UV>, nt: nat, mode: nat, row: nat, idx: int, fract: nat, ghost col: nat)
    returns (value: UV)
    requires IsSize(nt) && refs.Length >= 4 * nt + 1 && 3 <= mode <= 9 && row < nt && col < nt
    requires idx == Idx(Angle(mode), col) && fract == Fract(Angle(mode), col)
    ensures value == Sample(refs[..4 * nt + 1], nt, mode, row, col)
  {
    PositiveSample(refs[..4 * nt + 1], nt, mode, row, col);
    var main := 2 * nt - row - idx - 1;
    value := Interpolate(refs[main], refs[main - 1], fract);
  }

  /** One sample from the top row, idx and fract above it. */
  method FromTop(refs: array<UV>, nt: nat, mode: nat, col: nat, idx: int, fract: nat, ghost row: nat)
    returns (value: UV)
    requires IsSize(nt) && refs.Length >= 4 * nt + 1 && 27 <= mode <= 33 && row < nt && col < nt
    requires idx == Idx(Angle(mode), row) && fract == Fract(Angle(mode), row)
    ensures value == Sample(refs[..4 * nt + 1], nt, mode, row, col)
  {
    PositiveSample(refs[..4 * nt + 1], nt, mode, col, row);
    var main := 2 * nt + col + idx + 1;
    value := Interpolate(refs[main], refs[main + 1], fract);
  }

  method Mode3To9(refs: array<UV>, dst: array<UV>, off: nat, strd: nat, nt: nat, mode: nat)
    requires IsSize(nt) && refs != dst && refs.Length >= 4 * nt + 1 && Fits(dst.Length, off, strd, nt)
    requires 3 <= mode <= 9
    modifies dst
    ensures Predicted(dst[..], old(dst[..]), off, strd, refs[..4 * nt + 1], nt, mode)
  {
    ghost var p := refs[..4 * nt + 1];
    var angle := ANGLES[mode];
    AngleTable(mode);
    ghost var b := Job(dst[..], off, strd, p, nt, mode, false);
    PaintNothing(b);
    for col := 0 to nt
      invariant Painted(dst[..], b, col, 0)
    {
      var idx, fract := Displace(angle, col);
      for row := 0 to nt
        invariant Painted(dst[..], b, col, row)
      {
        var value := FromLeft(refs, nt, mode, row, idx, fract, col);
        Put(dst, At(off, strd, row) + col, value, b, col, row, row, col);
      }
      PaintRow(dst[..], b, col);
    }
    PaintAll(dst[..], b);
  }

  method Mode27To33(refs: array<UV>, dst: array<UV>, off: nat, strd: nat, nt: nat, mode: nat)
    requires IsSize(nt) && refs != dst && refs.Length >= 4 * nt + 1 && Fits(dst.Length, off, strd, nt)
    requires 27 <= mode <= 33
    modifies dst
    ensures Predicted(dst[..], old(dst[..]), off, strd, refs[..4 * nt + 1], nt, mode)
  {
    ghost var p := refs[..4 * nt + 1];
    var angle := ANGLES[mode];
    AngleTable(mode);
    ghost var b := Job(dst[..], off, strd, p, nt, mode, true);
    PaintNothing(b);
    for row := 0 to nt
      invariant Painted(dst[..], b, row, 0)
    {
      var idx, fract := Displace(angle, row);
      for col := 0 to nt
        invariant Painted(dst[..], b, row, col)
      {
        var value := FromTop(refs, nt, mode, col, idx, fract, row);
        Put(dst, At(off, strd, row) + col, value, b, row, col, row, col);
      }
      PaintRow(dst[..], b, row);
    }
  }

  const MAX_CU_SIZE := 64

  /** The main reference from just above RefIdx up to nt, at offset nt - 1. */
  ghost predicate Extended(temp: seq<UV>, p: seq<UV>, nt: nat, mode: nat, from: int)
    requires IsReference(p, nt) && (11 <= mode <= 17 || 19 <= mode <= 25) && RefIdx(Angle(mode), nt) < from
  {
    |temp| == MAX_CU_SIZE + 1 && forall k | from <= k <= nt ::
      0 <= k + nt - 1 < |temp| && temp[k + nt - 1] == Ref(p, nt, mode, k)
  }

  lemma RefIdxBounds(nt: nat, mode: nat)
    requires IsSize(nt) && (11 <= mode <= 17 || 19 <= mode <= 25)
    ensures 0 <= RefIdx(Angle(mode), nt) + nt < nt
  {
    TimesIs(nt, Angle(mode));
    MulMono(-32, Angle(mode), nt);
    MulMono(Angle(mode), -1, nt);
    assert Angle(mode) * nt == nt * Angle(mode);
  }

  lemma ExtendStep(temp: seq<UV>, u: seq<UV>, p: seq<UV>, nt: nat, mode: nat, k: int)
    requires IsReference(p, nt) && (11 <= mode <= 17 || 19 <= mode <= 25) && RefIdx(Angle(mode), nt) < k < 0
    requires Extended(temp, p, nt, mode, k + 1)
    ensures 0 <= k + nt - 1 < |temp|
    ensures u == temp[k + nt - 1 := Ref(p, nt, mode, k)] ==> Extended(u, p, nt, mode, k)
  {
    RefIdxBounds(nt, mode);
  }

  /** The projected sample is inside the reference. */
  lemma SideSample(p: seq<UV>, nt: nat, mode: nat, k: int, side: int)
    requires IsReference(p, nt) && (11 <= mode <= 17 || 19 <= mode <= 25) && RefIdx(Angle(mode), nt) < k < 0
    requires side == Side(Steps(mode), k)
    ensures 1 <= side <= nt && Ref(p, nt, mode, k) == p[if mode >= 18 then 2 * nt - side else 2 * nt + side]
  {
    SideInRange(Steps(mode), nt, k);
  }

  /** The main reference as it is, at offset nt - 1 of a temporary. */
  method CopyMain(refs: array<UV>, temp: array<UV>, nt: nat, mode: nat)
    requires IsSize(nt) && refs.Length >= 4 * nt + 1 && refs != temp && temp.Length == MAX_CU_SIZE + 1
    requires 11 <= mode <= 17 || 19 <= mode <= 25
    modifies temp
    ensures RefIdx(Angle(mode), nt) < 0 && Extended(temp[..], refs[..4 * nt + 1], nt, mode, 0)
  {
    ghost var p := refs[..4 * nt + 1];
    var top := mode >= 18;
    RefIdxBounds(nt, mode);
    for k := 0 to nt + 1
      invariant forall j | 0 <= j < k :: temp[j + nt - 1] == Ref(p, nt, mode, j)
    {
      temp[k + nt - 1] := refs[if top then 2 * nt + k else 2 * nt - k];
    }
  }

  /** One projected sample, for the sum of inverse angles reached. */
  method Project(refs: array<UV>, nt: nat, mode: nat, sum: int, ghost k: int) returns (value: UV)
    requires IsSize(nt) && refs.Length >= 4 * nt + 1 && (11 <= mode <= 17 || 19 <= mode <= 25)
    requires RefIdx(Angle(mode), nt) < k < 0 && sum == -k * Inverse(Steps(mode)) + 128
    ensures value == Ref(refs[..4 * nt + 1], nt, mode, k)
  {
    SideSample(refs[..4 * nt + 1], nt, mode, k, sum / 256);
    return refs[if mode >= 18 then 2 * nt - sum / 256 else 2 * nt + sum / 256];
  }

  /** Builds the extended main reference in a temporary that starts with arbitrary content. */
  method Extend(refs: array<UV>, nt: nat, mode: nat, angle: int, inverse: int) returns (temp: array<UV>)
    requires IsSize(nt) && refs.Length >= 4 * nt + 1 && (11 <= mode <= 17 || 19 <= mode <= 25)
    requires angle == Angle(mode) && inverse == Inverse(Steps(mode))
    ensures fresh(temp) && RefIdx(angle, nt) < 0
    ensures Extended(temp[..], refs[..4 * nt + 1], nt, mode, RefIdx(angle, nt) + 1)
  {
    ghost var p := refs[..4 * nt + 1];
    temp := new UV[MAX_CU_SIZE + 1];
    CopyMain(refs, temp, nt, mode);
    var refIdx := (nt * angle) / 32;
    TimesIs(nt, angle);
    var sum, k := 128, -1;
    while k > refIdx
      invariant refIdx <= k <= -1 && sum == (-k - 1) * inverse + 128
      invariant Extended(temp[..], p, nt, mode, k + 1)
    {
      assert (-k - 1) * inverse + inverse == -k * inverse;
      sum := sum + inverse;
      var value := Project(refs, nt, mode, sum, k);
      ghost var was := temp[..];
      ExtendStep(was, was, p, nt, mode, k);
      temp[k + nt - 1] := value;
      ExtendStep(was, temp[..], p, nt, mode, k);
      k := k - 1;
    }
  }

  lemma NegativeSample(temp: seq<UV>, p: seq<UV>, nt: nat, mode: nat, s: nat, t: nat)
    requires IsReference(p, nt) && (11 <= mode <= 17 || 19 <= mode <= 25) && s < nt && t < nt
    requires Extended(temp, p, nt, mode, RefIdx(Angle(mode), nt) + 1)
    ensures var a := Angle(mode); var m := s + Idx(a, t) + nt;
      0 <= m && m + 1 < |temp| && Projected(p, nt, mode, s, t) == Mix(temp[m], temp[m + 1], Fract(a, t))
  {
    var a := Angle(mode);
    IdxBounds(a, t);
    IdxAboveRefIdx(a, nt, t);
    RefIdxBounds(nt, mode);
    var k := s + Idx(a, t) + 1;
    assert temp[k + nt - 1] == Ref(p, nt, mode, k);
    assert temp[(k + 1) + nt - 1] == Ref(p, nt, mode, k + 1);
    MixZero(Ref(p, nt, mode, k), Ref(p, nt, mode, k + 1));
  }

  /** One sample from the extended main reference. */
  method FromExtended(temp: array<UV>, nt: nat, mode: nat, s: nat, idx: int, fract: nat, ghost t: nat, ghost p: seq<UV>)
    returns (value: UV)
    requires IsReference(p, nt) && (11 <= mode <= 17 || 19 <= mode <= 25) && s < nt && t < nt
    requires Extended(temp[..], p, nt, mode, RefIdx(Angle(mode), nt) + 1)
    requires idx == Idx(Angle(mode), t) && fract == Fract(Angle(mode), t)
    ensures value == Projected(p, nt, mode, s, t)
  {
    NegativeSample(temp[..], p, nt, mode, s, t);
    var main := nt - 1 + (s + idx + 1);
    value := Interpolate(temp[main], temp[main + 1], fract);
  }

  method Mode11To17(refs: array<UV>, dst: array<UV>, off: nat, strd: nat, nt: nat, mode: nat)
    requires IsSize(nt) && refs != dst && refs.Length >= 4 * nt + 1 && Fits(dst.Length, off, strd, nt)
    requires 11 <= mode <= 17
    modifies dst
    ensures Predicted(dst[..], old(dst[..]), off, strd, refs[..4 * nt + 1], nt, mode)
  {
    ghost var p := refs[..4 * nt + 1];
    var angle := ANGLES[mode];
    AngleTable(mode);
    InverseTable(mode);
    var temp := Extend(refs, nt, mode, angle, INVERSE_ANGLES[mode - 11]);
    ghost var b := Job(dst[..], off, strd, p, nt, mode, false);
    PaintNothing(b);
    for col := 0 to nt
      invariant Extended(temp[..], p, nt, mode, RefIdx(angle, nt) + 1)
      invariant Painted(dst[..], b, col, 0)
    {
      var idx, fract := Displace(angle, col);
      for row := 0 to nt
        invariant Extended(temp[..], p, nt, mode, RefIdx(angle, nt) + 1)
        invariant Painted(dst[..], b, col, row)
      {
        var value := FromExtended(temp, nt, mode, row, idx, fract, col, p);
        Put(dst, At(off, strd, row) + col, value, b, col, row, row, col);
      }
      PaintRow(dst[..], b, col);
    }
    PaintAll(dst[..], b);
  }

  method Mode19To25(refs: array<UV>, dst: array<UV>, off: nat, strd: nat, nt: nat, mode: nat)
    requires IsSize(nt) && refs != dst && refs.Length >= 4 * nt + 1 && Fits(dst.Length, off, strd, nt)
    requires 19 <= mode <= 25
    modifies dst
    ensures Predicted(dst[..], old(dst[..]), off, strd, refs[..4 * nt + 1], nt, mode)
  {
    ghost var p := refs[..4 * nt + 1];
    var angle := ANGLES[mode];
    AngleTable(mode);
    InverseTable(mode);
    var temp := Extend(refs, nt, mode, angle, INVERSE_ANGLES[mode - 12]);
    ghost var b := Job(dst[..], off, strd, p, nt, mode, true);
    PaintNothing(b);
    for row := 0 to nt
      invariant Extended(temp[..], p, nt, mode, RefIdx(angle, nt) + 1)
      invariant Painted(dst[..], b, row, 0)
    {
      var idx, fract := Displace(angle, row);
      for col := 0 to nt
        invariant Extended(temp[..], p, nt, mode, RefIdx(angle, nt) + 1)
        invariant Painted(dst[..], b, row, col)
      {
        var value := FromExtended(temp, nt, mode, col, idx, fract, row, p);
        Put(dst, At(off, strd, row) + col, value, b, row, col, row, col);
      }
      PaintRow(dst[..], b, row);
    }
  }

  // Filtering of the reference.

  /** The first n pairs of the smoothed reference. */
  ghost predicate SmoothTo(d: seq<UV>, p: seq<UV>, n: nat) {
    n <= |p| <= |d| && forall i | 0 <= i < n :: d[i] == Smoothed(p, i)
  }

  lemma SmoothAll(d: seq<UV>, p: seq<UV>, nt: nat, mode: nat)
    requires IsSize(nt) && SmoothTo(d, p, |p|) && FilterRule(mode, nt)
    ensures d[..|p|] == Filtered(p, nt, mode, false)
  {
  }

  method SmoothReference(src: array<UV>, nt: nat) returns (flt: array<UV>)
    requires IsSize(nt) && src.Length >= 4 * nt + 1
    ensures fresh(flt) && SmoothTo(flt[..], src[..4 * nt + 1], 4 * nt + 1)
  {
    ghost var p := src[..4 * nt + 1];
    flt := new UV[4 * MAX_CU_SIZE + 1];
    flt[0] := src[0];
    flt[4 * nt] := src[4 * nt];
    for i := 1 to 4 * nt
      invariant flt[4 * nt] == p[4 * nt] && SmoothTo(flt[..], p, i)
    {
      var l, m, r := src[i - 1], src[i], src[i + 1];
      flt[i] := UV((l.u + 2 * m.u + r.u + 2) / 4, (l.v + 2 * m.v + r.v + 2) / 4);
    }
  }

  method CopyPairs(src: array<UV>, dst: array<UV>, n: nat)
    requires src != dst && n <= src.Length && n <= dst.Length
    modifies dst
    ensures dst[..n] == src[..n] && dst[n..] == old(dst[n..])
  {
    for i := 0 to n
      invariant dst[..i] == src[..i] && dst[n..] == old(dst[n..])
    {
      dst[i] := src[i];
    }
  }

  /** Source and destination may be one buffer. */
  method RefFiltering(src: array<UV>, nt: nat, dst: array<UV>, mode: nat, disabled: bool)
    requires IsSize(nt) && mode <= 34 && src.Length >= 4 * nt + 1 && dst.Length >= 4 * nt + 1
    modifies dst
    ensures dst[..4 * nt + 1] == Filtered(old(src[..4 * nt + 1]), nt, mode, disabled)
    ensures dst[4 * nt + 1..] == old(dst[4 * nt + 1..])
  {
    FilterFlagIsRule(mode, nt);
    if disabled || !FilterFlag(mode, nt) {
      if src == dst { return; }
      CopyPairs(src, dst, 4 * nt + 1);
    } else {
      var flt := SmoothReference(src, nt);
      SmoothAll(flt[..], src[..4 * nt + 1], nt, mode);
      CopyPairs(flt, dst, 4 * nt + 1);
    }
  }
}
