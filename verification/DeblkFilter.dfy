/** The luma and chroma deblocking filters of section 8.7.2.5 of H.265 on the samples across
    an edge, with no shortcuts, and the bounds they keep. */
module DeblkFilter {
  import opened Common

  /** Eight samples across an edge: four of the P block, four of the Q block. */
  datatype Line = Line(p3: int, p2: int, p1: int, p0: int, q0: int, q1: int, q2: int, q3: int)

  /** gai4_ihevc_beta_table. */
  const BETA_TABLE: seq<int> :=
    [0, 0, 0, 0, 0, 0, 0, 0, 0, 0, 0, 0, 0] +
    [0, 0, 0, 6, 7, 8, 9, 10, 11, 12, 13, 14, 15] +
    [16, 17, 18, 20, 22, 24, 26, 28, 30, 32, 34, 36, 38] +
    [40, 42, 44, 46, 48, 50, 52, 54, 56, 58, 60, 62, 64]

  /** gai4_ihevc_tc_table. */
  const TC_TABLE: seq<int> :=
    [0, 0, 0, 0, 0, 0, 0, 0, 0] +
    [0, 0, 0, 0, 0, 0, 0, 0, 0] +
    [1, 1, 1, 1, 1, 1, 1, 1, 1] +
    [2, 2, 2, 2, 3, 3, 3, 3, 4] +
    [4, 4, 5, 5, 6, 6, 7, 8, 9] +
    [10, 11, 13, 14, 16, 18, 20, 22, 24]

  /** beta' of table 8-12 of H.265, piecewise. */
  function Beta(i: int): (b: int)
    requires 0 <= i <= 51
    ensures 0 <= b <= 64
  {
    if i < 16 then 0 else if i <= 28 then i - 10 else 2 * i - 38
  }

  /** tC' of table 8-12 of H.265, piecewise. */
  function Tc(i: int): (tc: int)
    requires 0 <= i <= 53
    ensures 0 <= tc <= 24
  {
    if i < 18 then 0 else if i < 27 then 1 else if i < 31 then 2 else if i < 35 then 3
    else if i < 38 then 4 else if i < 40 then 5 else if i < 42 then 6 else if i <= 46 then i - 35
    else if i == 47 then 13 else if i == 48 then 14 else 2 * i - 82
  }

  lemma BetaTable(i: int)
    requires 0 <= i <= 51
    ensures |BETA_TABLE| == 52 && BETA_TABLE[i] == Beta(i)
  {
  }

  lemma TcTable(i: int)
    requires 0 <= i <= 53
    ensures |TC_TABLE| == 54 && TC_TABLE[i] == Tc(i)
  {
  }

  /** v moved to within t of x. */
  function Within(v: int, x: int, t: int): (r: int)
    ensures t >= 0 ==> Abs(r - x) <= t
    ensures t >= 0 && 0 <= v < 256 && 0 <= x < 256 ==> 0 <= r < 256
  {
    Clip3(v, x - t, x + t)
  }

  /** The strongly filtered first, second and third sample of a side, counted from the edge; the
      samples of that side come first, from the outside in. */
  function First(p2: int, p1: int, p0: int, q0: int, q1: int, tc: int): (r: int)
    ensures tc >= 0 ==> Abs(r - p0) <= 2 * tc
  {
    Within((p2 + 2 * p1 + 2 * p0 + 2 * q0 + q1 + 4) / 8, p0, 2 * tc)
  }

  function Second(p2: int, p1: int, p0: int, q0: int, tc: int): (r: int)
    ensures tc >= 0 ==> Abs(r - p1) <= 2 * tc
  {
    Within((p2 + p1 + p0 + q0 + 2) / 4, p1, 2 * tc)
  }

  function Third(p3: int, p2: int, p1: int, p0: int, q0: int, tc: int): (r: int)
    ensures tc >= 0 ==> Abs(r - p2) <= 2 * tc
  {
    Within((2 * p3 + 3 * p2 + p1 + p0 + q0 + 4) / 8, p2, 2 * tc)
  }

  function Strong(l: Line, tc: int): Line {
    Line(l.p3, Third(l.p3, l.p2, l.p1, l.p0, l.q0, tc), Second(l.p2, l.p1, l.p0, l.q0, tc),
         First(l.p2, l.p1, l.p0, l.q0, l.q1, tc),
         First(l.q2, l.q1, l.q0, l.p0, l.p1, tc), Second(l.q2, l.q1, l.q0, l.p0, tc),
         Third(l.q3, l.q2, l.q1, l.q0, l.p0, tc), l.q3)
  }

  /** A byte moved by d, saturating. */
  function Move(x: int, d: int): (r: uint8)
    ensures 0 <= x < 256 ==> Abs(r - x) <= Abs(d)
  {
    ClipU8(x + d)
  }

  /** v clipped to -t .. t. */
  function Limited(v: int, t: int): (r: int)
    ensures t >= 0 ==> Abs(r) <= t
  {
    Clip3(v, -t, t)
  }

  function Delta(l: Line): int {
    (9 * (l.q0 - l.p0) - 3 * (l.q1 - l.p1) + 8) / 16
  }

  function DeltaP(l: Line, d: int, tc: int): (r: int)
    ensures tc >= 0 ==> Abs(r) <= tc / 2
  {
    Limited(((l.p2 + l.p0 + 1) / 2 - l.p1 + d) / 2, tc / 2)
  }

  function DeltaQ(l: Line, d: int, tc: int): (r: int)
    ensures tc >= 0 ==> Abs(r) <= tc / 2
  {
    Limited(((l.q2 + l.q0 + 1) / 2 - l.q1 - d) / 2, tc / 2)
  }

  function Weak(l: Line, tc: int, dep: bool, deq: bool): Line {
    if Abs(Delta(l)) < 10 * tc then
      var d := Limited(Delta(l), tc);
      l.(p0 := Move(l.p0, d),
         q0 := Move(l.q0, -d),
         p1 := if dep then Move(l.p1, DeltaP(l, d, tc)) else l.p1,
         q1 := if deq then Move(l.q1, DeltaQ(l, d, tc)) else l.q1)
    else l
  }

  /** The outcome of the decisions for one edge segment: dE, dEp and dEq. */
  datatype Decision = Decision(de: int, dep: bool, deq: bool)

  /** The sides that are to be filtered, from f, and the others from l. */
  function Merged(l: Line, f: Line, filterP: bool, filterQ: bool): Line {
    Line(l.p3, if filterP then f.p2 else l.p2, if filterP then f.p1 else l.p1, if filterP then f.p0 else l.p0,
         if filterQ then f.q0 else l.q0, if filterQ then f.q1 else l.q1, if filterQ then f.q2 else l.q2, l.q3)
  }

  function FilterLine(l: Line, d: Decision, tc: int, filterP: bool, filterQ: bool): Line {
    var f := if d.de == 0 then l else if d.de == 2 then Strong(l, tc) else Weak(l, tc, d.dep, d.deq);
    Merged(l, f, filterP, filterQ)
  }

  function SecondP(l: Line): int { Abs(l.p2 - 2 * l.p1 + l.p0) }

  function SecondQ(l: Line): int { Abs(l.q2 - 2 * l.q1 + l.q0) }

  /** dSam: this line votes for the strong filter. */
  predicate Flat(l: Line, beta: int, tc: int) {
    && 2 * (SecondP(l) + SecondQ(l)) < beta / 4
    && Abs(l.q3 - l.q0) + Abs(l.p0 - l.p3) < beta / 8
    && Abs(l.q0 - l.p0) < (5 * tc + 1) / 2
  }

  /** Decisions from the first and the last of the four lines. */
  function Decide(l0: Line, l3: Line, beta: int, tc: int): Decision {
    if SecondP(l0) + SecondQ(l0) + SecondP(l3) + SecondQ(l3) < beta then
      Decision(if Flat(l0, beta, tc) && Flat(l3, beta, tc) then 2 else 1,
               SecondP(l0) + SecondP(l3) < (beta + beta / 2) / 8,
               SecondQ(l0) + SecondQ(l3) < (beta + beta / 2) / 8)
    else Decision(0, false, false)
  }

  /** The parameters of one call: strength, quantisers, offsets and per-side flags. */
  datatype Params = Params(bs: int, qpP: int, qpQ: int, betaOffsetDiv2: int, tcOffsetDiv2: int,
                           filterP: bool, filterQ: bool)

  function BetaOf(p: Params): int {
    Beta(Clip3((p.qpP + p.qpQ + 1) / 2 + 2 * p.betaOffsetDiv2, 0, 51))
  }

  function TcOf(p: Params): int {
    Tc(Clip3((p.qpP + p.qpQ + 1) / 2 + 2 * (p.bs / 2) + 2 * p.tcOffsetDiv2, 0, 53))
  }

  /** Line r of a segment whose first and last lines are l0 and l3. */
  function LumaLine(l: Line, l0: Line, l3: Line, p: Params): Line {
    FilterLine(l, Decide(l0, l3, BetaOf(p), TcOf(p)), TcOf(p), p.filterP, p.filterQ)
  }

  // Neutrality of the shortcuts.

  /** With tc == 0 no decision changes any sample, so a call may return at once. */
  lemma ZeroTcNeutral(l: Line, d: Decision, filterP: bool, filterQ: bool)
    ensures FilterLine(l, d, 0, filterP, filterQ) == l
  {
  }

  predicate Bytes(l: Line) {
    && 0 <= l.p3 < 256 && 0 <= l.p2 < 256 && 0 <= l.p1 < 256 && 0 <= l.p0 < 256
    && 0 <= l.q0 < 256 && 0 <= l.q1 < 256 && 0 <= l.q2 < 256 && 0 <= l.q3 < 256
  }

  /** With tc <= 1 the side decisions change nothing, so they may be cleared. */
  lemma SmallTcNeutral(l: Line, d: Decision, tc: int, filterP: bool, filterQ: bool)
    requires Bytes(l) && 0 <= tc <= 1
    ensures FilterLine(l, d, tc, filterP, filterQ)
         == FilterLine(l, d.(dep := false, deq := false), tc, filterP, filterQ)
  {
    assert tc / 2 == 0;
    assert Weak(l, tc, d.dep, d.deq) == Weak(l, tc, false, false);
  }

  // Bounds.

  /** The strong filter moves a sample by at most 2 * tc and, without any 8-bit clip, never
      leaves the byte range. */
  lemma StrongBounds(l: Line, tc: int)
    requires Bytes(l) && tc >= 0
    ensures var f := Strong(l, tc);
      && Bytes(f) && f.p3 == l.p3 && f.q3 == l.q3
      && Abs(f.p2 - l.p2) <= 2 * tc && Abs(f.p1 - l.p1) <= 2 * tc && Abs(f.p0 - l.p0) <= 2 * tc
      && Abs(f.q2 - l.q2) <= 2 * tc && Abs(f.q1 - l.q1) <= 2 * tc && Abs(f.q0 - l.q0) <= 2 * tc
  {
  }

  /** The weak filter moves the inner samples by at most tc, the next ones by at most half
      of that, and no others. */
  lemma WeakBounds(l: Line, tc: int, dep: bool, deq: bool)
    requires Bytes(l) && tc >= 0
    ensures var f := Weak(l, tc, dep, deq);
      && Bytes(f) && f.p3 == l.p3 && f.p2 == l.p2 && f.q2 == l.q2 && f.q3 == l.q3
      && Abs(f.p0 - l.p0) <= tc && Abs(f.q0 - l.q0) <= tc
      && Abs(f.p1 - l.p1) <= tc / 2 && Abs(f.q1 - l.q1) <= tc / 2
  {
  }

  /** Samples taken from two lines of bytes are bytes. */
  lemma MergedBytes(l: Line, f: Line, filterP: bool, filterQ: bool)
    requires Bytes(l) && Bytes(f)
    ensures Bytes(Merged(l, f, filterP, filterQ))
  {
  }

  /** Bytes stay bytes. */
  lemma FilterLineBytes(l: Line, d: Decision, tc: int, filterP: bool, filterQ: bool)
    requires Bytes(l) && tc >= 0
    ensures Bytes(FilterLine(l, d, tc, filterP, filterQ))
  {
    if d.de == 0 {
      MergedBytes(l, l, filterP, filterQ);
    } else if d.de == 2 {
      StrongBounds(l, tc);
      MergedBytes(l, Strong(l, tc), filterP, filterQ);
    } else {
      WeakBounds(l, tc, d.dep, d.deq);
      MergedBytes(l, Weak(l, tc, d.dep, d.deq), filterP, filterQ);
    }
  }

  // Segments of a buffer.

  predicate AllBytes(s: seq<int>) {
    forall i | 0 <= i < |s| :: 0 <= s[i] < 256
  }

  /** Where line k of a segment starts. */
  function Start(at: int, line: int, k: nat): int
    requires k <= 4
  {
    if k == 0 then at else if k == 1 then at + line else if k == 2 then at + 2 * line
    else if k == 3 then at + 3 * line else at + 4 * line
  }
}
