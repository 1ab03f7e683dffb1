/** ihevc_deblk_chroma_vert and ihevc_deblk_chroma_horz on interleaved U/V samples. */
module DeblkChroma {
  import opened Common
  import opened DeblkFilter

  /** One chroma position: both components. */
  datatype Pair = Pair(u: int, v: int)

  /** Two pairs on either side of an edge. */
  datatype PairLine = PairLine(p1: Pair, p0: Pair, q0: Pair, q1: Pair)

  /** Row of table 8-10 of H.265 for qPi, piecewise, with its continuation on either side. */
  function ChromaQp(qpi: int): int {
    if qpi < 30 then qpi
    else if qpi >= 43 then qpi - 6
    else if qpi < 35 then qpi - 1
    else if qpi < 37 then qpi - 2
    else if qpi < 39 then qpi - 3
    else if qpi < 41 then qpi - 4
    else qpi - 5
  }

  datatype ChromaParams = ChromaParams(qpP: int, qpQ: int, qpOffsetU: int, qpOffsetV: int, tcOffsetDiv2: int,
                                       filterP: bool, filterQ: bool, yuv444: bool)

  /** The index qPi of section 8.7.2.5.5. */
  function QpIndex(p: ChromaParams, offset: int): int { offset + (p.qpP + p.qpQ + 1) / 2 }

  function Threshold(qp: int, tcOffsetDiv2: int): (tc: int)
    ensures 0 <= tc <= 24
  {
    Tc(Clip3(qp + 2 + 2 * tcOffsetDiv2, 0, 53))
  }

  function ChromaTc(p: ChromaParams, offset: int): (tc: int)
    ensures 0 <= tc <= 24
  {
    var qpi := QpIndex(p, offset);
    Threshold(if p.yuv444 then Min(qpi, 51) else ChromaQp(qpi), p.tcOffsetDiv2)
  }

  /** gai4_ihevc_qp_table. */
  const QP_TABLE: seq<int> :=
    [0, 1, 2, 3, 4, 5, 6, 7, 8, 9, 10, 11, 12, 13, 14, 15, 16] +
    [17, 18, 19, 20, 21, 22, 23, 24, 25, 26, 27, 28, 29, 29, 30, 31, 32] +
    [33, 33, 34, 34, 35, 35, 36, 36, 37, 37, 38, 39, 40, 41, 42, 43, 44] +
    [45, 46, 47, 48, 49, 50, 51]

  lemma QpTable(i: int)
    requires 0 <= i <= 57
    ensures |QP_TABLE| == 58 && QP_TABLE[i] == ChromaQp(i)
  {
  }

  method TableQp(index: int) returns (qp: int)
    ensures qp == ChromaQp(index)
  {
    if index < 0 {
      return index;
    }
    if index > 57 {
      return index - 6;
    }
    QpTable(index);
    return QP_TABLE[index];
  }

  method TableThreshold(qp: int, tcOffsetDiv2: int) returns (tc: int)
    ensures tc == Threshold(qp, tcOffsetDiv2)
  {
    var tcIndex := Clip3(qp + 2 + tcOffsetDiv2 * 2, 0, 53);
    TcTable(tcIndex);
    tc := TC_TABLE[tcIndex];
  }

  /** The threshold of one component, from the tables. */
  method TableTc(p: ChromaParams, offset: int) returns (tc: int)
    ensures tc == ChromaTc(p, offset)
  {
    var index := offset + (p.qpP + p.qpQ + 1) / 2;
    var qp := if index < 51 then index else 51;
    if !p.yuv444 {
      qp := TableQp(index);
    }
    tc := TableThreshold(qp, p.tcOffsetDiv2);
  }

  // 4:2:2, where the standard takes Min(qPi, 51) and the code the table of 4:2:0.

  lemma QpExactly(qpi: int)
    ensures ChromaQp(qpi) == Min(qpi, 51) <==> qpi < 30 || qpi == 57
  {
  }

  /** The two quantisers give the same threshold for every offset that a stream may carry if and
      only if they are equal. */
  lemma ThresholdExactly(qpi: int)
    ensures (forall o | -6 <= o <= 6 :: Threshold(ChromaQp(qpi), o) == Threshold(Min(qpi, 51), o))
       <==> qpi < 30 || qpi == 57
  {
    QpExactly(qpi);
    if 30 <= qpi && qpi != 57 {
      DifferentThresholds(qpi);
    }
  }

  lemma DifferentThresholds(qpi: int)
    requires 30 <= qpi && qpi != 57
    ensures var o := if qpi <= 46 then 5 else -1; Threshold(ChromaQp(qpi), o) != Threshold(Min(qpi, 51), o)
  {
  }

  /** Outside 4:4:4, where the index is below 30 or 57, the threshold is that of Min(qPi, 51). */
  lemma SameThreshold(p: ChromaParams, offset: int)
    requires !p.yuv444 && (QpIndex(p, offset) < 30 || QpIndex(p, offset) == 57)
    ensures ChromaTc(p, offset) == Threshold(Min(QpIndex(p, offset), 51), p.tcOffsetDiv2)
  {
    QpExactly(QpIndex(p, offset));
  }

  /** At quantiser 42 the code filters 4:2:2 with threshold 5 where the standard has 9. */
  lemma ThresholdDiffers()
    ensures var p := ChromaParams(42, 42, 0, 0, 0, true, true, false);
      ChromaTc(p, 0) == 5 && Threshold(Min(QpIndex(p, 0), 51), 0) == 9
  {
  }

  /** Section 8.7.2.5.8 for one component. */
  function ChromaDelta(p1: int, p0: int, q0: int, q1: int, tc: int): (d: int)
    ensures tc >= 0 ==> Abs(d) <= tc
  {
    Clip3(((q0 - p0) * 4 + p1 - q1 + 4) / 8, -tc, tc)
  }

  function NewP0(p1: int, p0: int, q0: int, q1: int, tc: int): uint8 {
    ClipU8(p0 + ChromaDelta(p1, p0, q0, q1, tc))
  }

  function NewQ0(p1: int, p0: int, q0: int, q1: int, tc: int): uint8 {
    ClipU8(q0 - ChromaDelta(p1, p0, q0, q1, tc))
  }

  /** A filtered line of pairs. */
  function ChromaLine(l: PairLine, tcU: int, tcV: int, filterP: bool, filterQ: bool): PairLine {
    l.(p0 := if filterP
             then Pair(NewP0(l.p1.u, l.p0.u, l.q0.u, l.q1.u, tcU), NewP0(l.p1.v, l.p0.v, l.q0.v, l.q1.v, tcV))
             else l.p0,
       q0 := if filterQ
             then Pair(NewQ0(l.p1.u, l.p0.u, l.q0.u, l.q1.u, tcU), NewQ0(l.p1.v, l.p0.v, l.q0.v, l.q1.v, tcV))
             else l.q0)
  }

  /** The filtered line for the parameters of a call. */
  function Filtered(l: PairLine, p: ChromaParams): PairLine {
    ChromaLine(l, ChromaTc(p, p.qpOffsetU), ChromaTc(p, p.qpOffsetV), p.filterP, p.filterQ)
  }

  predicate PairBytes(x: Pair) { 0 <= x.u < 256 && 0 <= x.v < 256 }

  /** With both thresholds zero a call changes nothing, so it may return at once. */
  lemma ChromaZeroNeutral(l: PairLine, p: ChromaParams)
    requires PairBytes(l.p0) && PairBytes(l.q0)
    requires ChromaTc(p, p.qpOffsetU) == 0 && ChromaTc(p, p.qpOffsetV) == 0
    ensures Filtered(l, p) == l
  {
  }

  // In place, on one buffer.

  function PairAt(s: seq<int>, i: int): Pair
    requires 0 <= i && i + 1 < |s|
  {
    Pair(s[i], s[i + 1])
  }

  /** The pairs around position at, tap entries apart. */
  function PairLineAt(s: seq<int>, at: int, tap: int): PairLine
    requires tap > 0 && 0 <= at - 2 * tap && at + tap + 1 < |s|
  {
    PairLine(PairAt(s, at - 2 * tap), PairAt(s, at - tap), PairAt(s, at), PairAt(s, at + tap))
  }

  /** The two samples next to the edge, for one component. */
  method NextToEdge(p1: int, p0: int, q0: int, q1: int, tc: int) returns (p: uint8, q: uint8)
    ensures p == NewP0(p1, p0, q0, q1, tc) && q == NewQ0(p1, p0, q0, q1, tc)
  {
    var delta := Clip3(((q0 - p0) * 4 + p1 - q1 + 4) / 8, -tc, tc);
    return ClipU8(p0 + delta), ClipU8(q0 - delta);
  }

  /** One row of the vertical-edge loop: pairs are two entries apart. */
  method ChromaRow(pic: array<int>, at: nat, tcU: int, tcV: int, filterP: bool, filterQ: bool)
    requires 4 <= at && at + 3 < pic.Length
    modifies pic
    ensures PairLineAt(pic[..], at, 2) == ChromaLine(PairLineAt(old(pic[..]), at, 2), tcU, tcV, filterP, filterQ)
    ensures forall i | 0 <= i < pic.Length && !(at - 2 <= i < at + 2) :: pic[i] == old(pic[i])
  {
    var p0u, q0u := NextToEdge(pic[at - 4], pic[at - 2], pic[at], pic[at + 2], tcU);
    var p0v, q0v := NextToEdge(pic[at - 3], pic[at - 1], pic[at + 1], pic[at + 3], tcV);
    if filterP {
      pic[at - 2], pic[at - 1] := p0u, p0v;
    }
    if filterQ {
      pic[at], pic[at + 1] := q0u, q0v;
    }
  }

  /** One column of the horizontal-edge loop: a single component. */
  method ChromaColumn(pic: array<int>, at: nat, strd: nat, tc: int, filterP: bool, filterQ: bool)
    requires 0 < strd && 2 * strd <= at && at + strd < pic.Length
    modifies pic
    ensures var p1, p0, q0, q1 := old(pic[at - 2 * strd]), old(pic[at - strd]), old(pic[at]), old(pic[at + strd]);
      && pic[at - strd] == (if filterP then NewP0(p1, p0, q0, q1, tc) else p0)
      && pic[at] == (if filterQ then NewQ0(p1, p0, q0, q1, tc) else q0)
    ensures forall i | 0 <= i < pic.Length && i != at - strd && i != at :: pic[i] == old(pic[i])
  {
    var p0, q0 := NextToEdge(pic[at - 2 * strd], pic[at - strd], pic[at], pic[at + strd], tc);
    if filterP {
      pic[at - strd] := p0;
    }
    if filterQ {
      pic[at] := q0;
    }
  }

  /** u is s with the first `done` pair lines of a segment filtered. */
  ghost predicate Done(u: seq<int>, s: seq<int>, at: int, line: int, tap: int, p: ChromaParams, done: nat)
    requires tap > 0 && line > 0 && 0 <= at - 2 * tap && at + 3 * line + tap + 1 < |s| == |u| && done <= 4
  {
    forall k | 0 <= k < 4 ::
      PairLineAt(u, Start(at, line, k), tap) ==
        if k < done then Filtered(PairLineAt(s, Start(at, line, k), tap), p) else PairLineAt(s, Start(at, line, k), tap)
  }

  lemma NothingDone(s: seq<int>, at: int, line: int, tap: int, p: ChromaParams)
    requires tap > 0 && line > 0 && 0 <= at - 2 * tap && at + 3 * line + tap + 1 < |s| && AllBytes(s)
    requires ChromaTc(p, p.qpOffsetU) == 0 && ChromaTc(p, p.qpOffsetV) == 0
    ensures Done(s, s, at, line, tap, p, 4)
  {
    forall k | 0 <= k < 4
      ensures Filtered(PairLineAt(s, Start(at, line, k), tap), p) == PairLineAt(s, Start(at, line, k), tap)
    {
      ChromaZeroNeutral(PairLineAt(s, Start(at, line, k), tap), p);
    }
  }

  lemma RowDone(u: seq<int>, v: seq<int>, s: seq<int>, at: int, strd: int, p: ChromaParams, row: nat)
    requires 8 <= strd && 4 <= at && at + 3 * strd + 3 < |s| == |u| == |v| && row < 4
    requires Done(u, s, at, strd, 2, p, row)
    requires var cur := Start(at, strd, row);
      && PairLineAt(v, cur, 2) == Filtered(PairLineAt(u, cur, 2), p)
      && forall i | 0 <= i < |s| && !(cur - 2 <= i < cur + 2) :: v[i] == u[i]
    ensures Done(v, s, at, strd, 2, p, row + 1)
  {
    forall k | 0 <= k < 4
      ensures PairLineAt(v, Start(at, strd, k), 2) ==
        if k < row + 1 then Filtered(PairLineAt(s, Start(at, strd, k), 2), p) else PairLineAt(s, Start(at, strd, k), 2)
    {
      if k != row {
        assert PairLineAt(v, Start(at, strd, k), 2) == PairLineAt(u, Start(at, strd, k), 2);
      }
    }
  }

  /** i is not among the samples a vertical-edge call may write. */
  predicate ApartVert(i: int, at: int, strd: int) {
    && !(at - 2 <= i < at + 2) && !(at + strd - 2 <= i < at + strd + 2)
    && !(at + 2 * strd - 2 <= i < at + 2 * strd + 2) && !(at + 3 * strd - 2 <= i < at + 3 * strd + 2)
  }

  /** What filtering leaves of the pairs next to the edge is bytes again. */
  lemma FilteredBytes(l: PairLine, p: ChromaParams)
    requires PairBytes(l.p0) && PairBytes(l.q0)
    ensures PairBytes(Filtered(l, p).p0) && PairBytes(Filtered(l, p).q0)
  {
  }

  /** A filtered line of a buffer of bytes: i is one of the entries of p0 or q0. */
  lemma LineBytes(s: seq<int>, u: seq<int>, cur: int, tap: int, p: ChromaParams, i: int)
    requires tap > 0 && 0 <= cur - 2 * tap && cur + tap + 1 < |s| == |u| && AllBytes(s)
    requires PairLineAt(u, cur, tap) == Filtered(PairLineAt(s, cur, tap), p)
    requires i == cur - tap || i == cur - tap + 1 || i == cur || i == cur + 1
    ensures 0 <= u[i] < 256
  {
    FilteredBytes(PairLineAt(s, cur, tap), p);
    assert PairLineAt(u, cur, tap).p0 == PairAt(u, cur - tap) && PairLineAt(u, cur, tap).q0 == PairAt(u, cur);
  }

  /** Line k of a finished segment. */
  lemma DoneLine(u: seq<int>, s: seq<int>, at: int, line: int, tap: int, p: ChromaParams, k: nat)
    requires tap > 0 && line > 0 && 0 <= at - 2 * tap && at + 3 * line + tap + 1 < |s| == |u| && k < 4
    requires Done(u, s, at, line, tap, p, 4)
    ensures var cur := at + k * line;
      && 0 <= cur - 2 * tap && cur + tap + 1 < |s|
      && PairLineAt(u, cur, tap) == Filtered(PairLineAt(s, cur, tap), p)
  {
    assert PairLineAt(u, Start(at, line, k), tap) == Filtered(PairLineAt(s, Start(at, line, k), tap), p);
    if k == 0 {} else if k == 1 {} else if k == 2 {} else {}
  }

  lemma KeepsBytesVert(u: seq<int>, s: seq<int>, at: int, strd: int, p: ChromaParams)
    requires 8 <= strd && 4 <= at && at + 3 * strd + 3 < |s| == |u| && AllBytes(s) && Done(u, s, at, strd, 2, p, 4)
    requires forall i | 0 <= i < |s| && ApartVert(i, at, strd) :: u[i] == s[i]
    ensures AllBytes(u)
  {
    forall i | 0 <= i < |u|
      ensures 0 <= u[i] < 256
    {
      if !ApartVert(i, at, strd) {
        var k := if at - 2 <= i < at + 2 then 0 else if at + strd - 2 <= i < at + strd + 2 then 1
                 else if at + 2 * strd - 2 <= i < at + 2 * strd + 2 then 2 else 3;
        DoneLine(u, s, at, strd, 2, p, k);
        LineBytes(s, u, at + k * strd, 2, p, i);
      }
    }
  }

  /** ihevc_deblk_chroma_vert. */
  method ChromaVert(pic: array<int>, at: nat, strd: nat, p: ChromaParams)
    requires 8 <= strd && 4 <= at && at + 3 * strd + 3 < pic.Length && AllBytes(pic[..])
    modifies pic
    ensures Done(pic[..], old(pic[..]), at, strd, 2, p, 4)
    ensures forall i | 0 <= i < pic.Length && ApartVert(i, at, strd) :: pic[i] == old(pic[i])
    ensures AllBytes(pic[..])
  {
    ghost var s := pic[..];
    var tcU := TableTc(p, p.qpOffsetU);
    var tcV := TableTc(p, p.qpOffsetV);
    if tcU == 0 && tcV == 0 {
      NothingDone(s, at, strd, 2, p);
      return;
    }
    var cur := at;
    for row := 0 to 4
      invariant cur == Start(at, strd, row) && Done(pic[..], s, at, strd, 2, p, row)
      invariant forall i | 0 <= i < pic.Length && ApartVert(i, at, strd) :: pic[i] == s[i]
    {
      ghost var u := pic[..];
      ChromaRow(pic, cur, tcU, tcV, p.filterP, p.filterQ);
      RowDone(u, pic[..], s, at, strd, p, row);
      cur := cur + strd;
    }
    KeepsBytesVert(pic[..], s, at, strd, p);
  }

  /** Column j of a horizontal edge: a U column if j is even, a V column if it is odd. It has
      been filtered if it comes before `done`. */
  ghost predicate ColumnIs(u: seq<int>, s: seq<int>, at: int, strd: int, p: ChromaParams, done: nat, j: nat)
    requires 8 <= strd && 2 * strd <= at && at + strd + 7 < |s| == |u| && j < 8
  {
    var tc := ChromaTc(p, if j % 2 == 1 then p.qpOffsetV else p.qpOffsetU);
    var i := at + j;
    && u[i - 2 * strd] == s[i - 2 * strd] && u[i + strd] == s[i + strd]
    && u[i - strd] == (if j < done && p.filterP
                       then NewP0(s[i - 2 * strd], s[i - strd], s[i], s[i + strd], tc) else s[i - strd])
    && u[i] == (if j < done && p.filterQ then NewQ0(s[i - 2 * strd], s[i - strd], s[i], s[i + strd], tc) else s[i])
  }

  ghost predicate Columns(u: seq<int>, s: seq<int>, at: int, strd: int, p: ChromaParams, done: nat)
    requires 8 <= strd && 2 * strd <= at && at + strd + 7 < |s| == |u|
  {
    forall j | 0 <= j < 8 :: ColumnIs(u, s, at, strd, p, done, j)
  }

  lemma ColumnDone(u: seq<int>, v: seq<int>, s: seq<int>, at: int, strd: int, p: ChromaParams, col: nat)
    requires 8 <= strd && 2 * strd <= at && at + strd + 7 < |s| == |u| == |v| && col < 8
    requires Columns(u, s, at, strd, p, col)
    requires ColumnIs(v, s, at, strd, p, col + 1, col)
    requires forall i | 0 <= i < |s| && i != at + col - strd && i != at + col :: v[i] == u[i]
    ensures Columns(v, s, at, strd, p, col + 1)
  {
    var done := col + 1;
    forall j | 0 <= j < 8 && j != col
      ensures ColumnIs(v, s, at, strd, p, done, j)
    {
      assert ColumnIs(u, s, at, strd, p, col, j);
    }
  }

  /** Eight filtered columns are four filtered lines of pairs. */
  lemma ColumnsArePairs(u: seq<int>, s: seq<int>, at: int, strd: int, p: ChromaParams)
    requires 8 <= strd && 2 * strd <= at && at + strd + 7 < |s| == |u|
    requires Columns(u, s, at, strd, p, 8)
    ensures Done(u, s, at, 2, strd, p, 4)
  {
    forall k | 0 <= k < 4
      ensures PairLineAt(u, Start(at, 2, k), strd) == Filtered(PairLineAt(s, Start(at, 2, k), strd), p)
    {
      assert ColumnIs(u, s, at, strd, p, 8, 2 * k);
      assert ColumnIs(u, s, at, strd, p, 8, 2 * k + 1);
    }
  }

  /** i is not among the samples a horizontal-edge call may write. */
  predicate ApartHorz(i: int, at: int, strd: int) {
    !(at - strd <= i < at - strd + 8) && !(at <= i < at + 8)
  }

  lemma KeepsBytesHorz(u: seq<int>, s: seq<int>, at: int, strd: int, p: ChromaParams)
    requires 8 <= strd && 2 * strd <= at && at + strd + 7 < |s| == |u| && AllBytes(s) && Done(u, s, at, 2, strd, p, 4)
    requires forall i | 0 <= i < |s| && ApartHorz(i, at, strd) :: u[i] == s[i]
    ensures AllBytes(u)
  {
    forall i | 0 <= i < |u|
      ensures 0 <= u[i] < 256
    {
      if !ApartHorz(i, at, strd) {
        var c := if at <= i < at + 8 then i - at else i - at + strd;
        DoneLine(u, s, at, 2, strd, p, c / 2);
        LineBytes(s, u, at + c / 2 * 2, strd, p, i);
      }
    }
  }

  /** ihevc_deblk_chroma_horz: eight columns, one component each, alternating. */
  method ChromaHorz(pic: array<int>, at: nat, strd: nat, p: ChromaParams)
    requires 8 <= strd && 2 * strd <= at && at + strd + 7 < pic.Length && AllBytes(pic[..])
    modifies pic
    ensures Done(pic[..], old(pic[..]), at, 2, strd, p, 4)
    ensures forall i | 0 <= i < pic.Length && ApartHorz(i, at, strd) :: pic[i] == old(pic[i])
    ensures AllBytes(pic[..])
  {
    ghost var s := pic[..];
    var tcU := TableTc(p, p.qpOffsetU);
    var tcV := TableTc(p, p.qpOffsetV);
    if tcU == 0 && tcV == 0 {
      NothingDone(s, at, 2, strd, p);
      return;
    }
    var cur := at;
    for col := 0 to 8
      invariant cur == at + col
      invariant Columns(pic[..], s, at, strd, p, col)
      invariant forall i | 0 <= i < pic.Length && ApartHorz(i, at, strd) :: pic[i] == s[i]
    {
      ghost var u := pic[..];
      assert ColumnIs(u, s, at, strd, p, col, col);
      var tc := if col % 2 == 1 then tcV else tcU;
      ChromaColumn(pic, cur, strd, tc, p.filterP, p.filterQ);
      ColumnDone(u, pic[..], s, at, strd, p, col);
      cur := cur + 1;
    }
    ColumnsArePairs(pic[..], s, at, strd, p);
    KeepsBytesHorz(pic[..], s, at, strd, p);
  }
}
