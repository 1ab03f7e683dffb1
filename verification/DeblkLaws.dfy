/** What the deblocking filters do to the lines they are made for: steps are smoothed, ramps are
    kept, and every sample has its weight. None of these laws names an expression of the filters. */
module DeblkLaws {
  import opened Common
  import opened DeblkFilter
  import opened DeblkChroma

  /** Clipping gives the nearest point of the interval. */
  lemma ClipNearest(x: int, lo: int, hi: int, y: int)
    requires lo <= y <= hi
    ensures lo <= Clip3(x, lo, hi) <= hi && Abs(x - Clip3(x, lo, hi)) <= Abs(x - y)
  {
  }

  /** A flat step: a before the edge, b after it. */
  function StepLine(a: int, b: int): Line { Line(a, a, a, a, b, b, b, b) }

  /** Eight samples in arithmetic progression. */
  function Ramp(c: int, s: int): Line {
    Line(c, c + s, c + 2 * s, c + 3 * s, c + 4 * s, c + 5 * s, c + 6 * s, c + 7 * s)
  }

  /** The line with the two sides exchanged. */
  function Turned(l: Line): Line { Line(l.q3, l.q2, l.q1, l.q0, l.p0, l.p1, l.p2, l.p3) }

  predicate Between(x: int, a: int, b: int) { a <= x <= b || b <= x <= a }

  /** How far a step from a to b is corrected: three eighths of it, rounded to nearest, up to tc. */
  function StepMove(a: int, b: int, tc: int): int { Clip3((3 * (b - a) + 4) / 8, -tc, tc) }

  /** Three eighths of a step never reach past its middle. */
  lemma StepShrinks(a: int, b: int, tc: int)
    requires tc >= 0
    ensures var m := StepMove(a, b, tc);
      Between(a + m, a, b) && Between(b - m, a, b) && Abs((b - m) - (a + m)) <= Abs(b - a)
  {
  }

  // The weak luma filter.

  lemma WeakStepDelta(a: int, b: int)
    ensures Delta(StepLine(a, b)) == (3 * (b - a) + 4) / 8
  {
  }

  /** The samples beside the two next to the edge, for a correction d. */
  lemma WeakStepSides(a: int, b: int, d: int, tc: int)
    ensures DeltaP(StepLine(a, b), d, tc) == Clip3(d / 2, -(tc / 2), tc / 2)
    ensures DeltaQ(StepLine(a, b), d, tc) == Clip3(-d / 2, -(tc / 2), tc / 2)
  {
  }

  lemma MoveInside(a: int, b: int, d: int)
    requires 0 <= a < 256 && 0 <= b < 256 && Between(a + d, a, b)
    ensures Move(a, d) == a + d
  {
  }

  /** Unless the step is so high that it is taken for a real edge, the weak filter moves the two
      samples next to it towards each other by exactly StepMove, and the samples beside them, where
      that is decided, by half as much, up to tc / 2. */
  lemma WeakOnStep(a: int, b: int, tc: int, dep: bool, deq: bool)
    requires 0 <= a < 256 && 0 <= b < 256 && tc >= 0
    ensures var f := Weak(StepLine(a, b), tc, dep, deq);
      if Abs((3 * (b - a) + 4) / 8) < 10 * tc then
        var m := StepMove(a, b, tc);
        && f.p0 == a + m && f.q0 == b - m
        && f.p1 == (if dep then a + Clip3(m / 2, -(tc / 2), tc / 2) else a)
        && f.q1 == (if deq then b + Clip3(-m / 2, -(tc / 2), tc / 2) else b)
        && f.p3 == f.p2 == a && f.q2 == f.q3 == b
      else f == StepLine(a, b)
  {
    var m := StepMove(a, b, tc);
    WeakStepDelta(a, b);
    StepShrinks(a, b, tc);
    WeakStepSides(a, b, m, tc);
    MoveInside(a, b, m);
    MoveInside(b, a, -m);
    HalfInside(a, b, m, tc);
    HalfInside(b, a, -m, tc);
  }

  lemma HalfInside(a: int, b: int, d: int, tc: int)
    requires 0 <= a < 256 && 0 <= b < 256 && tc >= 0 && Between(a + d, a, b)
    ensures var h := Clip3(d / 2, -(tc / 2), tc / 2); Move(a, h) == a + h
  {
  }

  /** So the filtered samples lie between the two sides and the step is not widened. */
  lemma WeakSmooths(a: int, b: int, tc: int, dep: bool, deq: bool)
    requires 0 <= a < 256 && 0 <= b < 256 && tc >= 0
    ensures var f := Weak(StepLine(a, b), tc, dep, deq);
      Between(f.p0, a, b) && Between(f.q0, a, b) && Abs(f.q0 - f.p0) <= Abs(b - a)
  {
    WeakOnStep(a, b, tc, dep, deq);
    StepShrinks(a, b, tc);
  }

  /** A ramp is no edge. */
  lemma WeakKeepsRamps(c: int, s: int, tc: int, dep: bool, deq: bool)
    requires Bytes(Ramp(c, s)) && tc >= 0
    ensures Weak(Ramp(c, s), tc, dep, deq) == Ramp(c, s)
  {
    assert Delta(Ramp(c, s)) == 0;
  }

  /** The weight of each of the four samples in the correction: sixteenths. */
  lemma DeltaWeights(l: Line, k: int)
    ensures Delta(l.(q0 := l.q0 + 16 * k)) == Delta(l) + 9 * k
    ensures Delta(l.(p0 := l.p0 + 16 * k)) == Delta(l) - 9 * k
    ensures Delta(l.(q1 := l.q1 + 16 * k)) == Delta(l) - 3 * k
    ensures Delta(l.(p1 := l.p1 + 16 * k)) == Delta(l) + 3 * k
    ensures Delta(l.(p3 := k, p2 := k, q2 := k, q3 := k)) == Delta(l)
  {
  }

  /** Where p1 is corrected without reaching the limit, four steps of p2 or p0 move it by one, two
      of its own against it, and two of the correction of p0 with it; q1 likewise. */
  lemma SideWeights(l: Line, d: int, tc: int)
    requires 1 <= tc / 2
    ensures Abs(DeltaP(l, d, tc)) < tc / 2 ==>
      && DeltaP(l.(p2 := l.p2 + 4), d, tc) == DeltaP(l, d, tc) + 1
      && DeltaP(l.(p0 := l.p0 + 4), d, tc) == DeltaP(l, d, tc) + 1
      && DeltaP(l.(p1 := l.p1 + 2), d, tc) == DeltaP(l, d, tc) - 1
      && DeltaP(l, d + 2, tc) == DeltaP(l, d, tc) + 1
    ensures DeltaQ(l, d, tc) == DeltaP(Turned(l), -d, tc)
  {
  }

  // The strong luma filter.

  /** Eighths of each of the eight samples, from p3 to q3, in the three filtered samples of P. */
  const P0_WEIGHTS := [0, 1, 2, 2, 2, 1, 0, 0]
  const P1_WEIGHTS := [0, 2, 2, 2, 2, 0, 0, 0]
  const P2_WEIGHTS := [2, 3, 1, 1, 1, 0, 0, 0]

  /** A flat line with one sample raised. */
  function Raised(c: int, k: int, t: nat): Line
    requires t < 8
  {
    Line(if t == 0 then c + k else c, if t == 1 then c + k else c, if t == 2 then c + k else c,
         if t == 3 then c + k else c, if t == 4 then c + k else c, if t == 5 then c + k else c,
         if t == 6 then c + k else c, if t == 7 then c + k else c)
  }

  lemma FirstWeights(c: int, k: int, tc: int)
    requires 8 * Abs(k) <= 2 * tc
    ensures First(c, c, c, c, c, tc) == c
    ensures First(c + 8 * k, c, c, c, c, tc) == c + k && First(c, c + 8 * k, c, c, c, tc) == c + 2 * k
    ensures First(c, c, c + 8 * k, c, c, tc) == c + 2 * k && First(c, c, c, c + 8 * k, c, tc) == c + 2 * k
    ensures First(c, c, c, c, c + 8 * k, tc) == c + k
  {
  }

  lemma SecondWeights(c: int, k: int, tc: int)
    requires 8 * Abs(k) <= 2 * tc
    ensures Second(c, c, c, c, tc) == c
    ensures Second(c + 8 * k, c, c, c, tc) == c + 2 * k && Second(c, c + 8 * k, c, c, tc) == c + 2 * k
    ensures Second(c, c, c + 8 * k, c, tc) == c + 2 * k && Second(c, c, c, c + 8 * k, tc) == c + 2 * k
  {
  }

  lemma ThirdWeights(c: int, k: int, tc: int)
    requires 8 * Abs(k) <= 2 * tc
    ensures Third(c, c, c, c, c, tc) == c
    ensures Third(c + 8 * k, c, c, c, c, tc) == c + 2 * k && Third(c, c + 8 * k, c, c, c, tc) == c + 3 * k
    ensures Third(c, c, c + 8 * k, c, c, tc) == c + k && Third(c, c, c, c + 8 * k, c, tc) == c + k
    ensures Third(c, c, c, c, c + 8 * k, tc) == c + k
  {
  }

  /** The three filtered samples of P have the weights of sample t. */
  predicate Weighted(f: Line, c: int, k: int, t: nat)
    requires t < 8
  {
    f.p0 == c + P0_WEIGHTS[t] * k && f.p1 == c + P1_WEIGHTS[t] * k && f.p2 == c + P2_WEIGHTS[t] * k
  }

  lemma StrongWeights0(c: int, k: int, tc: int)
    requires 8 * Abs(k) <= 2 * tc
    ensures Weighted(Strong(Raised(c, 8 * k, 0), tc), c, k, 0)
  {
    FirstWeights(c, k, tc);
    SecondWeights(c, k, tc);
    ThirdWeights(c, k, tc);
  }

  lemma StrongWeights1(c: int, k: int, tc: int)
    requires 8 * Abs(k) <= 2 * tc
    ensures Weighted(Strong(Raised(c, 8 * k, 1), tc), c, k, 1)
  {
    FirstWeights(c, k, tc);
    SecondWeights(c, k, tc);
    ThirdWeights(c, k, tc);
  }

  lemma StrongWeights2(c: int, k: int, tc: int)
    requires 8 * Abs(k) <= 2 * tc
    ensures Weighted(Strong(Raised(c, 8 * k, 2), tc), c, k, 2)
  {
    FirstWeights(c, k, tc);
    SecondWeights(c, k, tc);
    ThirdWeights(c, k, tc);
  }

  lemma StrongWeights3(c: int, k: int, tc: int)
    requires 8 * Abs(k) <= 2 * tc
    ensures Weighted(Strong(Raised(c, 8 * k, 3), tc), c, k, 3)
  {
    FirstWeights(c, k, tc);
    SecondWeights(c, k, tc);
    ThirdWeights(c, k, tc);
  }

  lemma StrongWeights4(c: int, k: int, tc: int)
    requires 8 * Abs(k) <= 2 * tc
    ensures Weighted(Strong(Raised(c, 8 * k, 4), tc), c, k, 4)
  {
    FirstWeights(c, k, tc);
    SecondWeights(c, k, tc);
    ThirdWeights(c, k, tc);
  }

  lemma StrongWeights5(c: int, k: int, tc: int)
    requires 8 * Abs(k) <= 2 * tc
    ensures Weighted(Strong(Raised(c, 8 * k, 5), tc), c, k, 5)
  {
    FirstWeights(c, k, tc);
    SecondWeights(c, k, tc);
    ThirdWeights(c, k, tc);
  }

  lemma StrongWeights6(c: int, k: int, tc: int)
    requires 8 * Abs(k) <= 2 * tc
    ensures Weighted(Strong(Raised(c, 8 * k, 6), tc), c, k, 6)
  {
    FirstWeights(c, k, tc);
    SecondWeights(c, k, tc);
    ThirdWeights(c, k, tc);
  }

  lemma StrongWeights7(c: int, k: int, tc: int)
    requires 8 * Abs(k) <= 2 * tc
    ensures Weighted(Strong(Raised(c, 8 * k, 7), tc), c, k, 7)
  {
    FirstWeights(c, k, tc);
    SecondWeights(c, k, tc);
    ThirdWeights(c, k, tc);
  }

  /** Each sample that is raised alone by eight raises the filtered ones by its weights. */
  lemma StrongWeights(c: int, k: int, tc: int, t: nat)
    requires t < 8 && 8 * Abs(k) <= 2 * tc
    ensures Weighted(Strong(Raised(c, 8 * k, t), tc), c, k, t)
  {
    match t
    case 0 => StrongWeights0(c, k, tc);
    case 1 => StrongWeights1(c, k, tc);
    case 2 => StrongWeights2(c, k, tc);
    case 3 => StrongWeights3(c, k, tc);
    case 4 => StrongWeights4(c, k, tc);
    case 5 => StrongWeights5(c, k, tc);
    case 6 => StrongWeights6(c, k, tc);
    case 7 => StrongWeights7(c, k, tc);
  }

  /** The two sides are filtered alike. */
  lemma StrongTurned(l: Line, tc: int)
    ensures Strong(Turned(l), tc) == Turned(Strong(l, tc))
  {
  }

  /** On a step from a to b the three samples of the near side move by these amounts. */
  lemma StepMoves(a: int, b: int, tc: int)
    ensures First(a, a, a, b, b, tc) == a + Clip3((3 * (b - a) + 4) / 8, -2 * tc, 2 * tc)
    ensures Second(a, a, a, b, tc) == a + Clip3((b - a + 2) / 4, -2 * tc, 2 * tc)
    ensures Third(a, a, a, a, b, tc) == a + Clip3((b - a + 4) / 8, -2 * tc, 2 * tc)
  {
  }

  /** The near side of a step spread over six samples: from the fourth sample on, 1, 2 and 3 eighths
      of it, rounded to nearest, unless that is more than t. */
  predicate HalfSlope(f: Line, a: int, b: int, t: int) {
    && f.p3 == a && f.p2 == a + Clip3((b - a + 4) / 8, -t, t)
    && f.p1 == a + Clip3((b - a + 2) / 4, -t, t) && f.p0 == a + Clip3((3 * (b - a) + 4) / 8, -t, t)
  }

  predicate Slope(f: Line, a: int, b: int, t: int) {
    HalfSlope(f, a, b, t) && HalfSlope(Turned(f), b, a, t)
  }

  lemma StrongOnHalf(a: int, b: int, tc: int)
    ensures HalfSlope(Strong(StepLine(a, b), tc), a, b, 2 * tc)
  {
    StepMoves(a, b, tc);
  }

  /** A step becomes a slope. */
  lemma StrongOnStep(a: int, b: int, tc: int)
    ensures Slope(Strong(StepLine(a, b), tc), a, b, 2 * tc)
  {
    StrongOnHalf(a, b, tc);
    StrongOnHalf(b, a, tc);
    StrongTurned(StepLine(a, b), tc);
    assert Turned(StepLine(a, b)) == StepLine(b, a);
  }

  /** Going up, a slope goes up all the way, and it stays between the two sides. */
  lemma SlopeOrdered(f: Line, a: int, b: int, t: int)
    requires Slope(f, a, b, t) && a <= b && t >= 0
    ensures a == f.p3 <= f.p2 <= f.p1 <= f.p0 <= f.q0 <= f.q1 <= f.q2 <= f.q3 == b
  {
  }

  // The decisions.

  /** Flat sides with a step: always filtered where beta is not 0, strongly if and only if both
      steps are low for tc. */
  lemma DecideOnSteps(a0: int, b0: int, a3: int, b3: int, beta: int, tc: int)
    requires beta >= 0
    ensures Decide(StepLine(a0, b0), StepLine(a3, b3), beta, tc) ==
      if beta == 0 then Decision(0, false, false)
      else
        var low := 2 * Abs(b0 - a0) < 5 * tc && 2 * Abs(b3 - a3) < 5 * tc;
        Decision(if beta >= 8 && low then 2 else 1, beta >= 6, beta >= 6)
  {
  }

  lemma FlatTurned(l: Line, beta: int, tc: int)
    ensures SecondP(Turned(l)) == SecondQ(l) && SecondQ(Turned(l)) == SecondP(l)
    ensures Flat(Turned(l), beta, tc) <==> Flat(l, beta, tc)
  {
  }

  /** Exchanging the sides exchanges the decisions about them. */
  lemma DecideTurned(l0: Line, l3: Line, beta: int, tc: int)
    ensures var d, e := Decide(l0, l3, beta, tc), Decide(Turned(l0), Turned(l3), beta, tc);
      e.de == d.de && e.dep == d.deq && e.deq == d.dep
  {
    FlatTurned(l0, beta, tc);
    FlatTurned(l3, beta, tc);
  }

  /** Exchanging the first and the last line changes no decision. */
  lemma DecideExchanged(l0: Line, l3: Line, beta: int, tc: int)
    ensures Decide(l0, l3, beta, tc) == Decide(l3, l0, beta, tc)
  {
  }

  /** How much a raised sample counts as activity, from p3 to q3. */
  const ACTIVITY := [0, 1, 2, 1, 1, 2, 1, 0]

  /** One sample off a flat line by k, in both lines: its activity stops the filter, the strong
      filter and the correction of its own side, each from its own fraction of beta on. A raised
      outer sample, or one next to the edge, stops the strong filter too. */
  lemma DecideOnRaised(c: int, k: int, t: nat, beta: int, tc: int)
    requires t < 8 && beta >= 0 && 0 < k
    ensures var w := ACTIVITY[t] * k;
      var outer := if t == 0 || t == 3 || t == 4 || t == 7 then k else 0;
      Decide(Raised(c, k, t), Raised(c, k, t), beta, tc) ==
        if 2 * w >= beta then Decision(0, false, false)
        else
          Decision(if 2 * w < beta / 4 && outer < beta / 8 && (t == 3 || t == 4 ==> k < (5 * tc + 1) / 2)
                      && (5 * tc + 1) / 2 > 0 then 2 else 1,
                   (if t < 4 then 2 * w else 0) < (beta + beta / 2) / 8,
                   (if t < 4 then 0 else 2 * w) < (beta + beta / 2) / 8)
  {
    if t == 0 {} else if t == 1 {} else if t == 2 {} else if t == 3 {}
    else if t == 4 {} else if t == 5 {} else if t == 6 {} else {}
  }

  // Chroma.

  /** On a flat step the two samples next to it move towards each other by exactly StepMove. */
  lemma ChromaOnStep(a: int, b: int, tc: int)
    requires 0 <= a < 256 && 0 <= b < 256 && tc >= 0
    ensures var m := StepMove(a, b, tc);
      NewP0(a, a, b, b, tc) == a + m && NewQ0(a, a, b, b, tc) == b - m
  {
    StepShrinks(a, b, tc);
  }

  lemma ChromaSmooths(a: int, b: int, tc: int)
    requires 0 <= a < 256 && 0 <= b < 256 && tc >= 0
    ensures var p0, q0 := NewP0(a, a, b, b, tc), NewQ0(a, a, b, b, tc);
      Between(p0, a, b) && Between(q0, a, b) && Abs(q0 - p0) <= Abs(b - a)
  {
    ChromaOnStep(a, b, tc);
    StepShrinks(a, b, tc);
  }

  /** The weight of each sample in a correction that does not reach its limit: eighths. */
  lemma ChromaWeights(p1: int, p0: int, q0: int, q1: int, tc: int)
    requires Abs(ChromaDelta(p1, p0, q0, q1, tc)) < tc
    ensures var d := ChromaDelta(p1, p0, q0, q1, tc);
      && ChromaDelta(p1, p0, q0, q1 + 8, tc) == d - 1
      && ChromaDelta(p1 + 8, p0, q0, q1, tc) == d + 1
      && ChromaDelta(p1, p0, q0 + 2, q1, tc) == d + 1
      && ChromaDelta(p1, p0 + 2, q0, q1, tc) == d - 1
  {
  }

  /** Each component has its own threshold, and only the two pairs next to the edge change. */
  lemma ChromaLineOnStep(a: Pair, b: Pair, tcU: int, tcV: int, filterP: bool, filterQ: bool)
    requires PairBytes(a) && PairBytes(b) && tcU >= 0 && tcV >= 0
    ensures var f := ChromaLine(PairLine(a, a, b, b), tcU, tcV, filterP, filterQ);
      var u, v := StepMove(a.u, b.u, tcU), StepMove(a.v, b.v, tcV);
      f == PairLine(a, if filterP then Pair(a.u + u, a.v + v) else a,
                    if filterQ then Pair(b.u - u, b.v - v) else b, b)
  {
    ChromaOnStep(a.u, b.u, tcU);
    ChromaOnStep(a.v, b.v, tcV);
  }
}
