/** Intra prediction of interleaved chroma as section 8.4.4.2 of H.265 states it: filtering of
    the reference, planar, DC and angular samples. A reference holds 4 * nt + 1 pairs; position
    j of the left column (0 is the corner) is pair 2 * nt - j, position j of the top row is
    pair 2 * nt + j. */
module IntraSpec {
  import opened Common
  import opened IntraSubstitution

  predicate IsReference(p: seq<UV>, nt: nat) {
    IsSize(nt) && |p| == 4 * nt + 1
  }

  /** Position j of the top row or of the left column. */
  function Edge(p: seq<UV>, nt: nat, top: bool, j: nat): UV
    requires IsReference(p, nt) && j <= 2 * nt
  {
    if top then p[2 * nt + j] else p[2 * nt - j]
  }

  /** The reference with the roles of rows and columns exchanged. */
  function Mirror(p: seq<UV>): (q: seq<UV>)
    ensures |q| == |p|
  {
    seq(|p|, i requires 0 <= i < |p| => p[|p| - 1 - i])
  }

  predicate Within(s: UV, lo: UV, hi: UV) {
    lo.u <= s.u <= hi.u && lo.v <= s.v <= hi.v
  }

  predicate AllWithin(p: seq<UV>, lo: UV, hi: UV) {
    forall i | 0 <= i < |p| :: Within(p[i], lo, hi)
  }

  // Angles.

  const ANGLES: seq<int> :=
    [0, 0, 32, 26, 21, 17, 13, 9, 5, 2, 0, -2, -5, -9, -13, -17, -21, -26, -32,
     -26, -21, -17, -13, -9, -5, -2, 0, 2, 5, 9, 13, 17, 21, 26, 32]

  const INVERSE_ANGLES: seq<int> :=
    [4096, 1638, 910, 630, 482, 390, 315, 315, 390, 482, 630, 910, 1638, 4096]

  predicate IsAngular(mode: nat) { 2 <= mode <= 34 }

  /** The angle of a mode: fixed by its distance from the nearest pure direction. */
  function Angle(mode: nat): (a: int)
    requires IsAngular(mode)
  {
    if mode <= 10 then Slope(10 - mode)
    else if mode <= 18 then -Slope(mode - 10)
    else if mode <= 26 then -Slope(26 - mode)
    else Slope(mode - 26)
  }

  function Slope(steps: nat): (s: int)
    requires steps <= 8
    ensures 0 <= s <= 32 && (s == 32 <==> steps == 8) && (s == 0 <==> steps == 0)
  {
    match steps
    case 0 => 0
    case 1 => 2
    case 2 => 5
    case 3 => 9
    case 4 => 13
    case 5 => 17
    case 6 => 21
    case 7 => 26
    case _ => 32
  }

  /** The magnitude of the inverse angle: 256 * 32 / slope, rounded to nearest. */
  function Inverse(steps: nat): (v: nat)
    requires 1 <= steps <= 8
    ensures 2 * Abs(8192 - v * Slope(steps)) <= Slope(steps)
  {
    match steps
    case 1 => 4096
    case 2 => 1638
    case 3 => 910
    case 4 => 630
    case 5 => 482
    case 6 => 390
    case 7 => 315
    case _ => 256
  }

  /** Steps of a mode with a negative angle away from its pure direction. */
  function Steps(mode: nat): (s: nat)
    requires 11 <= mode <= 25
    ensures 1 <= s <= 8 && Angle(mode) == -Slope(s)
  {
    if mode <= 18 then mode - 10 else 26 - mode
  }

  lemma AngleTable(mode: nat)
    requires IsAngular(mode)
    ensures ANGLES[mode] == Angle(mode)
  {
    if mode <= 10 {} else if mode <= 18 {} else if mode <= 26 {} else {}
  }

  /** Both halves of the table of inverse angles. */
  lemma InverseTable(mode: nat)
    requires 11 <= mode <= 17 || 19 <= mode <= 25
    ensures INVERSE_ANGLES[if mode <= 17 then mode - 11 else mode - 12] == Inverse(Steps(mode))
  {
    if mode <= 17 {} else {}
  }

  // Angular prediction.

  /** n * a, by repeated addition. */
  function Times(n: nat, a: int): int {
    if n == 0 then 0 else Times(n - 1, a) + a
  }

  lemma {:induction false} TimesIs(n: nat, a: int)
    ensures Times(n, a) == n * a
  {
    if n > 0 { TimesIs(n - 1, a); }
  }

  /** Whole samples crossed at distance t + 1 from the edge. */
  function Idx(a: int, t: nat): int { Times(t + 1, a) / 32 }

  /** The 32nds left over. */
  function Fract(a: int, t: nat): nat { Times(t + 1, a) % 32 }

  lemma IdxBounds(a: int, t: nat)
    requires -32 <= a <= 32
    ensures -(t + 1) <= Idx(a, t) <= t + 1
    ensures a >= 0 ==> Idx(a, t) >= 0
    ensures a < 0 ==> Idx(a, t) <= -1
    ensures a < 32 ==> Idx(a, t) <= t
    ensures a == 32 ==> Idx(a, t) == t + 1 && Fract(a, t) == 0
    ensures a == -32 ==> Idx(a, t) == -(t + 1) && Fract(a, t) == 0
    ensures a == 0 ==> Idx(a, t) == 0 && Fract(a, t) == 0
  {
    TimesIs(t + 1, a);
    MulMono(-32, a, t + 1);
    MulMono(a, 32, t + 1);
    if a >= 0 { MulMono(0, a, t + 1); } else { MulMono(a, -1, t + 1); }
    if a < 32 { MulMono(a, 31, t + 1); }
    assert a * (t + 1) == (t + 1) * a;
  }

  /** How far the main reference reaches below zero: nothing at or below this is needed. */
  function RefIdx(a: int, nt: nat): int { Times(nt, a) / 32 }

  lemma IdxAboveRefIdx(a: int, nt: nat, t: nat)
    requires t < nt && a <= 0
    ensures RefIdx(a, nt) <= Idx(a, t)
  {
    TimesIs(t + 1, a);
    TimesIs(nt, a);
    MulMono(t + 1, nt, -a);
    assert (t + 1) * -a == -((t + 1) * a) && nt * -a == -(nt * a);
  }

  /** Position k < 0 of the main reference is this position of the side reference. */
  function Side(steps: nat, k: int): int
    requires 1 <= steps <= 8
  {
    (-k * Inverse(steps) + 128) / 256
  }

  /** Wherever the main reference is extended, the side sample lies next to the block. */
  lemma SideInRange(steps: nat, nt: nat, k: int)
    requires IsSize(nt) && 1 <= steps <= 8 && RefIdx(-Slope(steps), nt) < k < 0
    ensures 1 <= Side(steps, k) <= nt
  {
    TimesIs(nt, -Slope(steps));
    var n := -k;
    if steps <= 4 { SideFlat(steps, nt, n); } else { SideSteep(steps, nt, n); }
  }

  lemma SideFlat(steps: nat, nt: nat, n: nat)
    requires IsSize(nt) && 1 <= steps <= 4 && 0 < n && 32 * n < nt * Slope(steps)
    ensures 1 <= (n * Inverse(steps) + 128) / 256 <= nt
  {
    if steps == 1 {} else if steps == 2 {} else if steps == 3 {} else {}
  }

  lemma SideSteep(steps: nat, nt: nat, n: nat)
    requires IsSize(nt) && 5 <= steps <= 8 && 0 < n && 32 * n < nt * Slope(steps)
    ensures 1 <= (n * Inverse(steps) + 128) / 256 <= nt
  {
    if steps == 5 {} else if steps == 6 {} else if steps == 7 {} else {}
  }

  /** The main reference, extended by projection on the side reference. */
  function Ref(p: seq<UV>, nt: nat, mode: nat, k: int): UV
    requires IsReference(p, nt) && IsAngular(mode) && k <= 2 * nt
    requires k < 0 ==> 11 <= mode <= 25 && RefIdx(Angle(mode), nt) < k
  {
    if k >= 0 then Edge(p, nt, mode >= 18, k)
    else
      SideInRange(Steps(mode), nt, k);
      Edge(p, nt, mode < 18, Side(Steps(mode), k))
  }

  function Blend(a: int, b: int, f: nat): int { ((32 - f) * a + f * b + 16) / 32 }

  function Mix(a: UV, b: UV, f: nat): UV { UV(Blend(a.u, b.u, f), Blend(a.v, b.v, f)) }

  lemma MixZero(a: UV, b: UV)
    ensures Mix(a, b, 0) == a
  {
  }

  /** Where sample s along the edge and t away from it lands, for any angle. */
  lemma InReach(mode: nat, nt: nat, s: nat, t: nat)
    requires IsSize(nt) && IsAngular(mode) && s < nt && t < nt
    ensures var a := Angle(mode); var k := s + Idx(a, t) + 1;
      && k <= 2 * nt
      && (k < 0 ==> 11 <= mode <= 25 && RefIdx(a, nt) < k)
      && (Fract(a, t) != 0 ==> k + 1 <= 2 * nt)
  {
    var a := Angle(mode);
    IdxBounds(a, t);
    if a <= 0 { IdxAboveRefIdx(a, nt, t); }
  }

  /** Sample s along the main edge, t away from it. */
  function Projected(p: seq<UV>, nt: nat, mode: nat, s: nat, t: nat): UV
    requires IsReference(p, nt) && IsAngular(mode) && s < nt && t < nt
  {
    InReach(mode, nt, s, t);
    var a := Angle(mode);
    var k := s + Idx(a, t) + 1;
    if Fract(a, t) == 0 then Ref(p, nt, mode, k)
    else Mix(Ref(p, nt, mode, k), Ref(p, nt, mode, k + 1), Fract(a, t))
  }

  /** Row y, column x of an angular prediction. */
  function Angular(p: seq<UV>, nt: nat, mode: nat, y: nat, x: nat): UV
    requires IsReference(p, nt) && IsAngular(mode) && y < nt && x < nt
  {
    if mode >= 18 then Projected(p, nt, mode, x, y) else Projected(p, nt, mode, y, x)
  }

  // Transposition.

  lemma EdgeMirrored(p: seq<UV>, nt: nat, top: bool, j: nat)
    requires IsReference(p, nt) && j <= 2 * nt
    ensures Edge(p, nt, top, j) == Edge(Mirror(p), nt, !top, j)
  {
  }

  lemma RefMirrored(p: seq<UV>, nt: nat, mode: nat, k: int)
    requires IsReference(p, nt) && IsAngular(mode) && mode != 18 && k <= 2 * nt
    requires k < 0 ==> 11 <= mode <= 25 && RefIdx(Angle(mode), nt) < k
    ensures Ref(p, nt, mode, k) == Ref(Mirror(p), nt, 36 - mode, k)
  {
    if k >= 0 {
      EdgeMirrored(p, nt, mode >= 18, k);
    } else {
      SideInRange(Steps(mode), nt, k);
      EdgeMirrored(p, nt, mode < 18, Side(Steps(mode), k));
    }
  }

  /** Mode m on a reference is the transpose of mode 36 - m on the mirrored reference. */
  lemma AngularTransposed(p: seq<UV>, nt: nat, mode: nat, y: nat, x: nat)
    requires IsReference(p, nt) && IsAngular(mode) && y < nt && x < nt
    ensures Angular(p, nt, mode, y, x) == Angular(Mirror(p), nt, 36 - mode, x, y)
  {
    if mode == 18 {
      Diagonal(p, nt, y, x);
      Diagonal(Mirror(p), nt, x, y);
    } else {
      var s, t := if mode >= 18 then x else y, if mode >= 18 then y else x;
      ProjectedMirrored(p, nt, mode, s, t);
    }
  }

  lemma ProjectedMirrored(p: seq<UV>, nt: nat, mode: nat, s: nat, t: nat)
    requires IsReference(p, nt) && IsAngular(mode) && mode != 18 && s < nt && t < nt
    ensures Projected(p, nt, mode, s, t) == Projected(Mirror(p), nt, 36 - mode, s, t)
  {
    InReach(mode, nt, s, t);
    assert Angle(36 - mode) == Angle(mode);
    var k := s + Idx(Angle(mode), t) + 1;
    RefMirrored(p, nt, mode, k);
    if Fract(Angle(mode), t) != 0 { RefMirrored(p, nt, mode, k + 1); }
  }

  /** Mode 18 copies along the diagonal through the corner. */
  lemma Diagonal(p: seq<UV>, nt: nat, y: nat, x: nat)
    requires IsReference(p, nt) && y < nt && x < nt
    ensures Angular(p, nt, 18, y, x) == p[2 * nt + x - y]
  {
    IdxBounds(Angle(18), y);
    if x < y { DivModUnique((y - x) * 256 + 128, 256, y - x, 128); }
  }

  // Planar and DC.

  function Log2(nt: nat): nat
    requires IsSize(nt)
  {
    if nt == 4 then 2 else if nt == 8 then 3 else if nt == 16 then 4 else 5
  }

  /** A sum scaled by 2 * nt, rounded to nearest. */
  function Average(sum: int, nt: nat): int
    requires IsSize(nt)
  {
    Shr(sum + nt, Log2(nt) + 1)
  }

  /** Linear interpolation at x + 1 of nt + 1 from a to b, scaled by nt. */
  function Weigh(nt: nat, x: nat, a: int, b: int): int { (nt - 1 - x) * a + (x + 1) * b }

  function PlanarSample(nt: nat, left: int, topRight: int, top: int, botLeft: int, y: nat, x: nat): int
    requires IsSize(nt)
  {
    Average(Weigh(nt, x, left, topRight) + Weigh(nt, y, top, botLeft), nt)
  }

  function Planar(p: seq<UV>, nt: nat, y: nat, x: nat): UV
    requires IsReference(p, nt) && y < nt && x < nt
  {
    var l, tr := Edge(p, nt, false, y + 1), Edge(p, nt, true, nt + 1);
    var t, bl := Edge(p, nt, true, x + 1), Edge(p, nt, false, nt + 1);
    UV(PlanarSample(nt, l.u, tr.u, t.u, bl.u, y, x), PlanarSample(nt, l.v, tr.v, t.v, bl.v, y, x))
  }

  /** Planar prediction commutes with transposition. */
  lemma PlanarTransposed(p: seq<UV>, nt: nat, y: nat, x: nat)
    requires IsReference(p, nt) && y < nt && x < nt
    ensures Planar(p, nt, y, x) == Planar(Mirror(p), nt, x, y)
  {
    EdgeMirrored(p, nt, false, y + 1);
    EdgeMirrored(p, nt, true, nt + 1);
    EdgeMirrored(p, nt, true, x + 1);
    EdgeMirrored(p, nt, false, nt + 1);
  }

  function Plus(a: UV, b: UV): UV { UV(a.u + b.u, a.v + b.v) }

  /** The sum of the first n samples of the left column and of the top row. */
  function EdgeSum(p: seq<UV>, nt: nat, n: nat): UV
    requires IsReference(p, nt) && n <= nt
  {
    if n == 0 then UV(0, 0) else Plus(EdgeSum(p, nt, n - 1), Plus(Edge(p, nt, false, n), Edge(p, nt, true, n)))
  }

  function Dc(p: seq<UV>, nt: nat): UV
    requires IsReference(p, nt)
  {
    var s := EdgeSum(p, nt, nt);
    UV(Average(s.u, nt), Average(s.v, nt))
  }

  lemma {:induction false} EdgeSumMirrored(p: seq<UV>, nt: nat, n: nat)
    requires IsReference(p, nt) && n <= nt
    ensures EdgeSum(p, nt, n) == EdgeSum(Mirror(p), nt, n)
  {
    if n > 0 { EdgeSumMirrored(p, nt, n - 1); }
  }

  // Filtering of the reference.

  /** The smallest distance from a pure direction that is filtered, less one. */
  function Threshold(nt: nat): nat
    requires IsSize(nt)
  {
    if nt == 32 then 0 else if nt == 16 then 1 else if nt == 8 then 7 else 10
  }

  /** The rule of section 8.4.4.2.3; mode 0 is planar and mode 1 is DC. */
  predicate FilterRule(mode: nat, nt: nat)
    requires IsSize(nt)
  {
    mode != 1 && nt != 4 && Min(Abs(mode - 26), Abs(mode - 10)) > Threshold(nt)
  }

  const REF_FILTER: seq<nat> :=
    [14, 0, 14, 12, 12, 12, 12,
     12, 12, 8, 0, 8, 12, 12,
     12, 12, 12, 12, 14, 12, 12,
     12, 12, 12, 12, 8, 0, 8,
     12, 12, 12, 12, 12, 12, 14]

  /** Bit CTZ(nt) - 2 of the entry for the mode. */
  predicate FilterFlag(mode: nat, nt: nat)
    requires IsSize(nt) && mode <= 34
  {
    (REF_FILTER[mode] / Pow2(Log2(nt) - 2)) % 2 == 1
  }

  lemma FilterEntry(mode: nat)
    requires mode <= 34
    ensures var d := Min(Abs(mode - 26), Abs(mode - 10));
      REF_FILTER[mode] == if mode == 1 || d == 0 then 0 else if d == 1 then 8 else if d <= 7 then 12 else 14
  {
  }

  lemma FilterBit(entry: nat, nt: nat)
    requires IsSize(nt) && (entry == 0 || entry == 8 || entry == 12 || entry == 14)
    ensures (entry / Pow2(Log2(nt) - 2)) % 2 == 1
      <==> (nt == 32 && entry >= 8) || (nt == 16 && entry >= 12) || (nt == 8 && entry == 14)
  {
    assert Pow2(0) == 1 && Pow2(1) == 2 && Pow2(2) == 4 && Pow2(3) == 8;
    if nt == 4 {} else if nt == 8 {} else if nt == 16 {} else {}
  }

  /** The table is the rule. */
  lemma FilterFlagIsRule(mode: nat, nt: nat)
    requires IsSize(nt) && mode <= 34
    ensures FilterFlag(mode, nt) <==> FilterRule(mode, nt)
  {
    FilterEntry(mode);
    FilterBit(REF_FILTER[mode], nt);
  }

  function Smooth(a: int, b: int, c: int): int { (a + 2 * b + c + 2) / 4 }

  /** Pair i of the smoothed reference; the two ends are kept. */
  function Smoothed(p: seq<UV>, i: nat): UV
    requires i < |p|
  {
    if i == 0 || i == |p| - 1 then p[i]
    else UV(Smooth(p[i - 1].u, p[i].u, p[i + 1].u), Smooth(p[i - 1].v, p[i].v, p[i + 1].v))
  }

  /** The reference a mode predicts from. */
  function Filtered(p: seq<UV>, nt: nat, mode: nat, disabled: bool): (q: seq<UV>)
    requires IsSize(nt)
    ensures |q| == |p|
  {
    if disabled || !FilterRule(mode, nt) then p else seq(|p|, i requires 0 <= i < |p| => Smoothed(p, i))
  }

  /** Filtering for mode m commutes with mirroring for mode 36 - m. */
  lemma FilteredMirrored(p: seq<UV>, nt: nat, mode: nat, disabled: bool)
    requires IsSize(nt) && IsAngular(mode)
    ensures Mirror(Filtered(p, nt, mode, disabled)) == Filtered(Mirror(p), nt, 36 - mode, disabled)
  {
    var l, r := Mirror(Filtered(p, nt, mode, disabled)), Filtered(Mirror(p), nt, 36 - mode, disabled);
    assert FilterRule(mode, nt) == FilterRule(36 - mode, nt);
    forall i | 0 <= i < |p|
      ensures l[i] == r[i]
    {
    }
  }

  // Whole blocks.

  /** Row y, column x of the block that a mode predicts from a reference. */
  function Sample(p: seq<UV>, nt: nat, mode: nat, y: nat, x: nat): UV
    requires IsReference(p, nt) && mode <= 34 && y < nt && x < nt
  {
    if mode == 0 then Planar(p, nt, y, x) else if mode == 1 then Dc(p, nt) else Angular(p, nt, mode, y, x)
  }

  /** The mode whose prediction is the transpose. */
  function Partner(mode: nat): nat
    requires mode <= 34
  {
    if mode < 2 then mode else 36 - mode
  }

  /** Exchanging the left column and the top row transposes what every mode predicts. */
  lemma SampleTransposed(p: seq<UV>, nt: nat, mode: nat, y: nat, x: nat)
    requires IsReference(p, nt) && mode <= 34 && y < nt && x < nt
    ensures Sample(p, nt, mode, y, x) == Sample(Mirror(p), nt, Partner(mode), x, y)
  {
    if mode == 0 { PlanarTransposed(p, nt, y, x); }
    else if mode == 1 { EdgeSumMirrored(p, nt, nt); }
    else { AngularTransposed(p, nt, mode, y, x); }
  }

  // Range.

  lemma BlendWithin(a: int, b: int, f: nat, lo: int, hi: int)
    requires f < 32 && lo <= a <= hi && lo <= b <= hi
    ensures lo <= Blend(a, b, f) <= hi
  {
    MulMono(lo, a, 32 - f);
    MulMono(lo, b, f);
    MulMono(a, hi, 32 - f);
    MulMono(b, hi, f);
    Split(lo, f);
    Split(hi, f);
  }

  lemma Split(v: int, f: nat)
    ensures v * (32 - f) + v * f == 32 * v
  {
  }

  lemma AngularWithin(p: seq<UV>, nt: nat, mode: nat, y: nat, x: nat, lo: UV, hi: UV)
    requires IsReference(p, nt) && IsAngular(mode) && y < nt && x < nt && AllWithin(p, lo, hi)
    ensures Within(Angular(p, nt, mode, y, x), lo, hi)
  {
    var s, t := if mode >= 18 then x else y, if mode >= 18 then y else x;
    InReach(mode, nt, s, t);
    var a := Angle(mode);
    var k := s + Idx(a, t) + 1;
    RefWithin(p, nt, mode, k, lo, hi);
    if Fract(a, t) != 0 {
      RefWithin(p, nt, mode, k + 1, lo, hi);
      var m, n := Ref(p, nt, mode, k), Ref(p, nt, mode, k + 1);
      BlendWithin(m.u, n.u, Fract(a, t), lo.u, hi.u);
      BlendWithin(m.v, n.v, Fract(a, t), lo.v, hi.v);
    }
  }

  lemma RefWithin(p: seq<UV>, nt: nat, mode: nat, k: int, lo: UV, hi: UV)
    requires IsReference(p, nt) && IsAngular(mode) && k <= 2 * nt && AllWithin(p, lo, hi)
    requires k < 0 ==> 11 <= mode <= 25 && RefIdx(Angle(mode), nt) < k
    ensures Within(Ref(p, nt, mode, k), lo, hi)
  {
    if k < 0 { SideInRange(Steps(mode), nt, k); }
  }

  /** A sum of 2 * nt samples between lo and hi averages between lo and hi. */
  lemma AverageWithin(sum: int, nt: nat, lo: int, hi: int)
    requires IsSize(nt) && 2 * (nt * lo) <= sum <= 2 * (nt * hi)
    ensures lo <= Average(sum, nt) <= hi
  {
    ShrIsDivision(sum + nt, Log2(nt) + 1);
    assert Pow2(3) == 8;
    assert Pow2(4) == 16;
    assert Pow2(5) == 32;
    assert Pow2(6) == 64;
    if nt == 4 {} else if nt == 8 {} else if nt == 16 {} else {}
  }

  lemma PlanarSampleWithin(nt: nat, l: int, tr: int, t: int, bl: int, y: nat, x: nat, lo: int, hi: int)
    requires IsSize(nt) && y < nt && x < nt
    requires lo <= l <= hi && lo <= tr <= hi && lo <= t <= hi && lo <= bl <= hi
    ensures lo <= PlanarSample(nt, l, tr, t, bl, y, x) <= hi
  {
    PairWithin(nt, x, l, tr, lo, hi);
    PairWithin(nt, y, t, bl, lo, hi);
    AverageWithin(Weigh(nt, x, l, tr) + Weigh(nt, y, t, bl), nt, lo, hi);
  }

  lemma PairWithin(nt: nat, x: nat, a: int, b: int, lo: int, hi: int)
    requires x < nt && lo <= a <= hi && lo <= b <= hi
    ensures nt * lo <= Weigh(nt, x, a, b) <= nt * hi
  {
    MulMono(lo, a, nt - 1 - x);
    MulMono(a, hi, nt - 1 - x);
    MulMono(lo, b, x + 1);
    MulMono(b, hi, x + 1);
    Parts(lo, nt, x);
    Parts(hi, nt, x);
  }

  lemma Parts(v: int, nt: nat, x: nat)
    ensures v * (nt - 1 - x) + v * (x + 1) == nt * v
  {
  }

  lemma {:induction false} EdgeSumWithin(p: seq<UV>, nt: nat, n: nat, lo: UV, hi: UV)
    requires IsReference(p, nt) && n <= nt && AllWithin(p, lo, hi)
    ensures 2 * (n * lo.u) <= EdgeSum(p, nt, n).u <= 2 * (n * hi.u)
    ensures 2 * (n * lo.v) <= EdgeSum(p, nt, n).v <= 2 * (n * hi.v)
  {
    if n > 0 {
      EdgeSumWithin(p, nt, n - 1, lo, hi);
      var l, t, e := Edge(p, nt, false, n), Edge(p, nt, true, n), EdgeSum(p, nt, n - 1);
      TwoMore(n, l.u, t.u, e.u, lo.u, hi.u);
      TwoMore(n, l.v, t.v, e.v, lo.v, hi.v);
    }
  }

  lemma TwoMore(n: nat, a: int, b: int, sum: int, lo: int, hi: int)
    requires n > 0 && lo <= a <= hi && lo <= b <= hi && 2 * ((n - 1) * lo) <= sum <= 2 * ((n - 1) * hi)
    ensures 2 * (n * lo) <= sum + (a + b) <= 2 * (n * hi)
  {
    assert n * lo == (n - 1) * lo + lo && n * hi == (n - 1) * hi + hi;
  }

  /** Every predicted sample lies between the smallest and the largest reference sample of its
      component. */
  lemma SampleWithin(p: seq<UV>, nt: nat, mode: nat, y: nat, x: nat, lo: UV, hi: UV)
    requires IsReference(p, nt) && mode <= 34 && y < nt && x < nt && AllWithin(p, lo, hi)
    ensures Within(Sample(p, nt, mode, y, x), lo, hi)
  {
    if mode == 0 {
      var l, tr := Edge(p, nt, false, y + 1), Edge(p, nt, true, nt + 1);
      var t, bl := Edge(p, nt, true, x + 1), Edge(p, nt, false, nt + 1);
      PlanarSampleWithin(nt, l.u, tr.u, t.u, bl.u, y, x, lo.u, hi.u);
      PlanarSampleWithin(nt, l.v, tr.v, t.v, bl.v, y, x, lo.v, hi.v);
    } else if mode == 1 {
      EdgeSumWithin(p, nt, nt, lo, hi);
      AverageWithin(EdgeSum(p, nt, nt).u, nt, lo.u, hi.u);
      AverageWithin(EdgeSum(p, nt, nt).v, nt, lo.v, hi.v);
    } else {
      AngularWithin(p, nt, mode, y, x, lo, hi);
    }
  }

  lemma FilteredWithin(p: seq<UV>, nt: nat, mode: nat, disabled: bool, lo: UV, hi: UV)
    requires IsSize(nt) && AllWithin(p, lo, hi)
    ensures AllWithin(Filtered(p, nt, mode, disabled), lo, hi)
  {
    forall i | 0 <= i < |p|
      ensures Within(Smoothed(p, i), lo, hi)
    {
      if 0 < i < |p| - 1 {
        assert Within(p[i - 1], lo, hi) && Within(p[i], lo, hi) && Within(p[i + 1], lo, hi);
      }
    }
  }

  lemma {:induction false} SubstitutedWithin(a: seq<bool>, p: seq<UV>, i: nat, lo: UV, hi: UV)
    requires |a| == |p| && Any(a) && i < |a|
    requires forall k | 0 <= k < |a| && a[k] :: Within(p[k], lo, hi)
    ensures Within(Substituted(a, p, i), lo, hi)
  {
    assert a[0..] == a;
    if i > 0 { SubstitutedWithin(a, p, i - 1, lo, hi); }
  }

  /** Substitution, filtering and prediction together: only the available neighbours bound the
      predicted block, and a constant neighbourhood predicts a constant block. */
  lemma PredictionWithin(a: seq<bool>, p: seq<UV>, nt: nat, mode: nat, disabled: bool, q: seq<UV>,
                         y: nat, x: nat, lo: UV, hi: UV)
    requires IsReference(p, nt) && |a| == |p| == |q| && Any(a) && mode <= 34 && y < nt && x < nt
    requires forall k | 0 <= k < |a| && a[k] :: Within(p[k], lo, hi)
    requires forall i | 0 <= i < |q| :: q[i] == Substituted(a, p, i)
    ensures Within(Sample(Filtered(q, nt, mode, disabled), nt, mode, y, x), lo, hi)
  {
    forall i | 0 <= i < |q|
      ensures Within(q[i], lo, hi)
    {
      SubstitutedWithin(a, p, i, lo, hi);
    }
    FilteredWithin(q, nt, mode, disabled, lo, hi);
    SampleWithin(Filtered(q, nt, mode, disabled), nt, mode, y, x, lo, hi);
  }
}
