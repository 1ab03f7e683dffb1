/** What intra prediction does to the edges it is made for: straight ramps are continued exactly,
    every sample has its weight, and results are rounded to nearest. None of these laws names an
    expression of the predictors. */
module IntraLaws {
  import opened Common
  import opened IntraSubstitution
  import opened IntraSpec

  // Interpolation.

  /** 32 times the sample is within half of 32 of the weighted sum, and ties go up; at weight 0 it
      is the first neighbour, and on the way to weight 32 it becomes the second. */
  lemma BlendNearest(a: int, b: int, f: nat)
    requires f <= 32
    ensures -16 < 32 * Blend(a, b, f) - (32 * a + f * (b - a)) <= 16
    ensures Blend(a, b, 0) == a && Blend(a, b, 32) == b
  {
    assert (32 - f) * a + f * b == 32 * a + f * (b - a);
  }

  /** Between a and a + 32 every weight gives a whole sample. */
  lemma BlendExact(a: int, f: nat)
    ensures Blend(a, a + 32, f) == a + f
  {
    assert (32 - f) * a + f * (a + 32) == 32 * (a + f);
  }

  /** Edge j of the reference is 32 * j further on than the corner value c, for each component. */
  predicate Straight(p: seq<UV>, nt: nat, top: bool, c: UV)
    requires IsReference(p, nt)
  {
    forall j | 0 <= j <= 2 * nt :: Edge(p, nt, top, j) == UV(c.u + 32 * j, c.v + 32 * j)
  }

  /** Where a sample lands: 32 times the whole samples crossed, and the 32nds left over. */
  lemma Position(a: int, t: nat)
    ensures 32 * Idx(a, t) + Fract(a, t) == (t + 1) * a
  {
    TimesIs(t + 1, a);
  }

  lemma RampRef(p: seq<UV>, nt: nat, mode: nat, k: nat, c: UV)
    requires IsReference(p, nt) && IsAngular(mode) && k <= 2 * nt && Straight(p, nt, mode >= 18, c)
    ensures Ref(p, nt, mode, k) == UV(c.u + 32 * k, c.v + 32 * k)
  {
    assert Edge(p, nt, mode >= 18, k) == UV(c.u + 32 * k, c.v + 32 * k);
  }

  /** A straight main edge is continued along the direction of the mode: sample s along the edge,
      t away from it, has the value of position 32 * (s + 1) + (t + 1) * angle. */
  lemma RampProjected(p: seq<UV>, nt: nat, mode: nat, s: nat, t: nat, c: UV)
    requires IsReference(p, nt) && IsAngular(mode) && s < nt && t < nt && Straight(p, nt, mode >= 18, c)
    requires 0 <= s + Idx(Angle(mode), t) + 1
    ensures var at := 32 * (s + 1) + (t + 1) * Angle(mode);
      Projected(p, nt, mode, s, t) == UV(c.u + at, c.v + at)
  {
    var a := Angle(mode);
    InReach(mode, nt, s, t);
    Position(a, t);
    var k, f := s + Idx(a, t) + 1, Fract(a, t);
    RampRef(p, nt, mode, k, c);
    if f != 0 {
      RampRef(p, nt, mode, k + 1, c);
      BlendExact(c.u + 32 * k, f);
      BlendExact(c.v + 32 * k, f);
    }
  }

  /** Whole blocks: modes with a positive angle and the pure directions read the main edge only. */
  lemma RampContinued(p: seq<UV>, nt: nat, mode: nat, y: nat, x: nat, c: UV)
    requires IsReference(p, nt) && (2 <= mode <= 10 || 26 <= mode <= 34) && y < nt && x < nt
    requires Straight(p, nt, mode >= 18, c)
    ensures var at := if mode >= 18 then 32 * (x + 1) + (y + 1) * Angle(mode) else 32 * (y + 1) + (x + 1) * Angle(mode);
      Sample(p, nt, mode, y, x) == UV(c.u + at, c.v + at)
  {
    var s, t := if mode >= 18 then x else y, if mode >= 18 then y else x;
    IdxBounds(Angle(mode), t);
    RampProjected(p, nt, mode, s, t, c);
  }

  /** The angles themselves: 32 per sample on the diagonals, 0 on the pure directions, and growing
      from one mode to the next on either side. */
  lemma AnglesTurn(mode: nat)
    requires IsAngular(mode) && mode < 34
    ensures if mode < 18 then Angle(mode + 1) < Angle(mode) else Angle(mode) < Angle(mode + 1)
    ensures Angle(2) == 32 && Angle(10) == 0 && Angle(18) == -32 && Angle(26) == 0 && Angle(34) == 32
  {
  }

  // Planar.

  lemma AverageMoves(sum: int, nt: nat, k: int)
    requires IsSize(nt)
    ensures Average(sum + 2 * (nt * k), nt) == Average(sum, nt) + k
    ensures 2 * (nt * Average(sum, nt)) - sum <= nt && sum - 2 * (nt * Average(sum, nt)) < nt
  {
    AverageIsQuotient(sum, nt);
    AverageIsQuotient(sum + 2 * (nt * k), nt);
    if nt == 4 {} else if nt == 8 {} else if nt == 16 {} else {}
  }

  lemma AverageIsQuotient(sum: int, nt: nat)
    requires IsSize(nt)
    ensures Average(sum, nt) ==
      if nt == 4 then (sum + 4) / 8 else if nt == 8 then (sum + 8) / 16
      else if nt == 16 then (sum + 16) / 32 else (sum + 32) / 64
  {
    ShrIsDivision(sum + nt, Log2(nt) + 1);
    assert Pow2(3) == 8;
    assert Pow2(4) == 16;
    assert Pow2(5) == 32;
    assert Pow2(6) == 64;
  }

  lemma PlanarAcross(nt: nat, l: int, tr: int, t: int, bl: int, y: nat, x: nat, k: int)
    requires IsSize(nt) && y < nt && x < nt
    ensures var s, raise := PlanarSample(nt, l, tr, t, bl, y, x), 2 * (nt * k);
      && PlanarSample(nt, l + raise, tr, t, bl, y, x) == s + (nt - 1 - x) * k
      && PlanarSample(nt, l, tr + raise, t, bl, y, x) == s + (x + 1) * k
  {
    var sum := Weigh(nt, x, l, tr) + Weigh(nt, y, t, bl);
    WeighRaised(nt, x, l, tr, k);
    AverageMoves(sum, nt, (nt - 1 - x) * k);
    AverageMoves(sum, nt, (x + 1) * k);
  }

  lemma PlanarDown(nt: nat, l: int, tr: int, t: int, bl: int, y: nat, x: nat, k: int)
    requires IsSize(nt) && y < nt && x < nt
    ensures var s, raise := PlanarSample(nt, l, tr, t, bl, y, x), 2 * (nt * k);
      && PlanarSample(nt, l, tr, t + raise, bl, y, x) == s + (nt - 1 - y) * k
      && PlanarSample(nt, l, tr, t, bl + raise, y, x) == s + (y + 1) * k
  {
    var sum := Weigh(nt, x, l, tr) + Weigh(nt, y, t, bl);
    WeighRaised(nt, y, t, bl, k);
    AverageMoves(sum, nt, (nt - 1 - y) * k);
    AverageMoves(sum, nt, (y + 1) * k);
  }

  /** Each of the four samples has a weight that falls off linearly with the distance from it. */
  lemma PlanarWeights(nt: nat, l: int, tr: int, t: int, bl: int, y: nat, x: nat, k: int)
    requires IsSize(nt) && y < nt && x < nt
    ensures var s, raise := PlanarSample(nt, l, tr, t, bl, y, x), 2 * (nt * k);
      && PlanarSample(nt, l + raise, tr, t, bl, y, x) == s + (nt - 1 - x) * k
      && PlanarSample(nt, l, tr + raise, t, bl, y, x) == s + (x + 1) * k
      && PlanarSample(nt, l, tr, t + raise, bl, y, x) == s + (nt - 1 - y) * k
      && PlanarSample(nt, l, tr, t, bl + raise, y, x) == s + (y + 1) * k
  {
    PlanarAcross(nt, l, tr, t, bl, y, x, k);
    PlanarDown(nt, l, tr, t, bl, y, x, k);
  }

  lemma WeighRaised(nt: nat, x: nat, a: int, b: int, k: int)
    requires x < nt
    ensures Weigh(nt, x, a + 2 * (nt * k), b) == Weigh(nt, x, a, b) + 2 * (nt * ((nt - 1 - x) * k))
    ensures Weigh(nt, x, a, b + 2 * (nt * k)) == Weigh(nt, x, a, b) + 2 * (nt * ((x + 1) * k))
  {
    Scaled(nt - 1 - x, a, nt, k);
    Scaled(x + 1, b, nt, k);
  }

  lemma Scaled(w: int, a: int, nt: int, k: int)
    ensures w * (a + 2 * (nt * k)) == w * a + 2 * (nt * (w * k))
  {
    assert w * (2 * (nt * k)) == 2 * (w * (nt * k));
    assert w * (nt * k) == nt * (w * k);
  }

  /** A flat reference predicts a flat block. */
  lemma PlanarFlat(nt: nat, c: int, y: nat, x: nat)
    requires IsSize(nt) && y < nt && x < nt
    ensures PlanarSample(nt, c, c, c, c, y, x) == c
  {
    PlanarSampleWithin(nt, c, c, c, c, y, x, c, c);
  }

  // DC.

  /** One sample of either edge, next to the block. */
  predicate Beside(nt: nat, i: nat) { nt <= i <= 3 * nt && i != 2 * nt }

  function Lifted(p: seq<UV>, i: nat, k: UV): (q: seq<UV>)
    requires i < |p|
    ensures |q| == |p|
  {
    p[i := Plus(p[i], k)]
  }

  lemma {:induction false} EdgeSumLifted(p: seq<UV>, nt: nat, n: nat, i: nat, k: UV)
    requires IsReference(p, nt) && n <= nt && i < |p|
    ensures EdgeSum(Lifted(p, i, k), nt, n) ==
      if 2 * nt - n <= i <= 2 * nt + n && i != 2 * nt then Plus(EdgeSum(p, nt, n), k) else EdgeSum(p, nt, n)
  {
    if n > 0 { EdgeSumLifted(p, nt, n - 1, i, k); }
  }

  lemma AveragesMove(e: UV, nt: nat, k: UV)
    requires IsSize(nt)
    ensures Average(e.u + 2 * (nt * k.u), nt) == Average(e.u, nt) + k.u
    ensures Average(e.v + 2 * (nt * k.v), nt) == Average(e.v, nt) + k.v
  {
    AverageMoves(e.u, nt, k.u);
    AverageMoves(e.v, nt, k.v);
  }

  /** Each of the 2 * nt samples beside the block has the same weight, and no other has any. */
  lemma DcWeights(p: seq<UV>, nt: nat, i: nat, k: UV)
    requires IsReference(p, nt) && i < |p|
    ensures Dc(Lifted(p, i, UV(2 * (nt * k.u), 2 * (nt * k.v))), nt) ==
      if Beside(nt, i) then Plus(Dc(p, nt), k) else Dc(p, nt)
  {
    EdgeSumLifted(p, nt, nt, i, UV(2 * (nt * k.u), 2 * (nt * k.v)));
    AveragesMove(EdgeSum(p, nt, nt), nt, k);
  }

  // Smoothing of the reference.

  /** A straight stretch is kept; the middle sample has weight two, the outer ones one; and the
      result is the nearest to the weighted mean, up on ties. */
  lemma SmoothWeights(a: int, b: int, c: int, k: int)
    ensures Smooth(b - k, b, b + k) == b
    ensures Smooth(a + 4 * k, b, c) == Smooth(a, b, c) + k
    ensures Smooth(a, b + 4 * k, c) == Smooth(a, b, c) + 2 * k
    ensures Smooth(a, b, c + 4 * k) == Smooth(a, b, c) + k
  {
  }

  /** In place in the reference: the two ends are kept, and a straight reference is kept whole. */
  lemma SmoothedStraight(p: seq<UV>, c: UV, k: UV, i: nat)
    requires i < |p| && forall j | 0 <= j < |p| :: p[j] == UV(c.u + k.u * j, c.v + k.v * j)
    ensures Smoothed(p, i) == p[i]
  {
    if 0 < i < |p| - 1 {
      Neighbouring(c.u, k.u, i);
      Neighbouring(c.v, k.v, i);
      SmoothWeights(0, c.u + k.u * i, 0, k.u);
      SmoothWeights(0, c.v + k.v * i, 0, k.v);
    }
  }

  lemma Neighbouring(c: int, k: int, i: int)
    ensures c + k * (i - 1) == c + k * i - k && c + k * (i + 1) == c + k * i + k
  {
  }
}
