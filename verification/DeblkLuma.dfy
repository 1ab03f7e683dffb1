/** ihevc_deblk_luma_vert and ihevc_deblk_luma_horz: in-place filtering of one four-line edge
    segment of a picture held row after row in one buffer. */
module DeblkLuma {
  import opened Common
  import opened DeblkFilter

  /** The eight samples around position at, tap entries apart. */
  function LineAt(s: seq<int>, at: int, tap: int): Line
    requires tap > 0 && 0 <= at - 4 * tap && at + 3 * tap < |s|
  {
    Line(s[at - 4 * tap], s[at - 3 * tap], s[at - 2 * tap], s[at - tap],
         s[at], s[at + tap], s[at + 2 * tap], s[at + 3 * tap])
  }

  /** The four lines of a segment. */
  datatype Four = Four(l0: Line, l1: Line, l2: Line, l3: Line) {
    function Nth(k: nat): Line { if k == 0 then l0 else if k == 1 then l1 else if k == 2 then l2 else l3 }
  }

  /** The lines of a segment, `line` entries from one to the next. */
  function Lines(s: seq<int>, at: int, line: int, tap: int): Four
    requires tap > 0 && line > 0 && 0 <= at - 4 * tap && at + 3 * line + 3 * tap < |s|
  {
    Four(LineAt(s, at, tap), LineAt(s, at + line, tap), LineAt(s, at + 2 * line, tap), LineAt(s, at + 3 * line, tap))
  }

  /** Section 8.7.2.5.3: a whole luma segment, decided on its first and last lines. */
  function Segment(ls: Four, p: Params): Four {
    Four(LumaLine(ls.l0, ls.l0, ls.l3, p), LumaLine(ls.l1, ls.l0, ls.l3, p),
         LumaLine(ls.l2, ls.l0, ls.l3, p), LumaLine(ls.l3, ls.l0, ls.l3, p))
  }

  /** The decisions as the functions take them, with dEp and dEq cleared for small tc. */
  function DecideShort(l0: Line, l3: Line, beta: int, tc: int): Decision {
    var dq0, dq3 := Abs(l0.q2 - 2 * l0.q1 + l0.q0), Abs(l3.q2 - 2 * l3.q1 + l3.q0);
    var dp0, dp3 := Abs(l0.p2 - 2 * l0.p1 + l0.p0), Abs(l3.p2 - 2 * l3.p1 + l3.p0);
    var d0, d3 := dp0 + dq0, dp3 + dq3;
    if d0 + d3 < beta then
      var sam0 := 2 * d0 < beta / 4 && Abs(l0.q3 - l0.q0) + Abs(l0.p0 - l0.p3) < beta / 8 &&
                  Abs(l0.q0 - l0.p0) < (5 * tc + 1) / 2;
      var sam3 := 2 * d3 < beta / 4 && Abs(l3.q3 - l3.q0) + Abs(l3.p0 - l3.p3) < beta / 8 &&
                  Abs(l3.q0 - l3.p0) < (5 * tc + 1) / 2;
      Decision(if sam0 && sam3 then 2 else 1,
               tc > 1 && dp0 + dp3 < (beta + beta / 2) / 8,
               tc > 1 && dq0 + dq3 < (beta + beta / 2) / 8)
    else Decision(0, false, false)
  }

  /** The shortened decisions filter every line as the full ones do. */
  lemma ShortNeutral(l: Line, l0: Line, l3: Line, p: Params)
    requires Bytes(l)
    ensures FilterLine(l, DecideShort(l0, l3, BetaOf(p), TcOf(p)), TcOf(p), p.filterP, p.filterQ)
         == LumaLine(l, l0, l3, p)
  {
    var d := Decide(l0, l3, BetaOf(p), TcOf(p));
    if TcOf(p) <= 1 {
      SmallTcNeutral(l, d, TcOf(p), p.filterP, p.filterQ);
    }
  }

  /** The temporaries of one loop iteration, from the samples across the edge. */
  method Taps(l: Line, d: Decision, tc: int) returns (f: Line)
    requires tc >= 0 && (d.de == 1 || d.de == 2)
    ensures f == if d.de == 2 then Strong(l, tc) else Weak(l, tc, d.dep, d.deq)
  {
    if d.de == 2 {
      f := StrongTaps(l, tc);
    } else {
      f := WeakTaps(l, d, tc);
    }
  }

  method StrongTaps(l: Line, tc: int) returns (f: Line)
    requires tc >= 0
    ensures f == Strong(l, tc)
  {
    var q0, q1, q2 := StrongQ(l, tc);
    var p0 := Clip3((l.q1 + 2 * l.q0 + 2 * l.p0 + 2 * l.p1 + l.p2 + 4) / 8, l.p0 - 2 * tc, l.p0 + 2 * tc);
    var p1 := Clip3((l.q0 + l.p0 + l.p1 + l.p2 + 2) / 4, l.p1 - 2 * tc, l.p1 + 2 * tc);
    var p2 := Clip3((l.q0 + l.p0 + l.p1 + 3 * l.p2 + 2 * l.p3 + 4) / 8, l.p2 - 2 * tc, l.p2 + 2 * tc);
    return Line(l.p3, p2, p1, p0, q0, q1, q2, l.q3);
  }

  method StrongQ(l: Line, tc: int) returns (q0: int, q1: int, q2: int)
    requires tc >= 0
    ensures q0 == Strong(l, tc).q0 && q1 == Strong(l, tc).q1 && q2 == Strong(l, tc).q2
  {
    q0 := Clip3((l.q2 + 2 * l.q1 + 2 * l.q0 + 2 * l.p0 + l.p1 + 4) / 8, l.q0 - 2 * tc, l.q0 + 2 * tc);
    q1 := Clip3((l.q2 + l.q1 + l.q0 + l.p0 + 2) / 4, l.q1 - 2 * tc, l.q1 + 2 * tc);
    q2 := Clip3((2 * l.q3 + 3 * l.q2 + l.q1 + l.q0 + l.p0 + 4) / 8, l.q2 - 2 * tc, l.q2 + 2 * tc);
  }

  method WeakDelta(p1: int, p0: int, q0: int, q1: int, ghost l: Line) returns (delta: int)
    requires l.p1 == p1 && l.p0 == p0 && l.q0 == q0 && l.q1 == q1
    ensures delta == Delta(l)
  {
    delta := (9 * (q0 - p0) - 3 * (q1 - p1) + 8) / 16;
  }

  /** The samples next to the edge, and the correction. */
  method WeakNext(l: Line, delta: int, tc: int) returns (p0: int, q0: int, d: int)
    ensures d == Limited(delta, tc) && p0 == Move(l.p0, d) && q0 == Move(l.q0, -d)
  {
    d := Clip3(delta, -tc, tc);
    return ClipU8(l.p0 + d), ClipU8(l.q0 - d), d;
  }

  /** The next sample of the P side, and the one of the Q side. */
  method WeakSides(l: Line, delta: int, tc: int) returns (p1: int, q1: int)
    ensures p1 == Move(l.p1, DeltaP(l, delta, tc)) && q1 == Move(l.q1, DeltaQ(l, delta, tc))
  {
    var deltaP := Clip3(((l.p2 + l.p0 + 1) / 2 - l.p1 + delta) / 2, -(tc / 2), tc / 2);
    var deltaQ := Clip3(((l.q2 + l.q0 + 1) / 2 - l.q1 - delta) / 2, -(tc / 2), tc / 2);
    return ClipU8(l.p1 + deltaP), ClipU8(l.q1 + deltaQ);
  }

  method WeakTaps(l: Line, d: Decision, tc: int) returns (f: Line)
    requires tc >= 0
    ensures f == Weak(l, tc, d.dep, d.deq)
  {
    var p0, p1, q0, q1 := l.p0, l.p1, l.q0, l.q1;
    var delta := WeakDelta(l.p1, l.p0, l.q0, l.q1, l);
    if Abs(delta) < 10 * tc {
      p0, q0, delta := WeakNext(l, delta, tc);
      var sideP, sideQ := WeakSides(l, delta, tc);
      if d.dep {
        p1 := sideP;
      }
      if d.deq {
        q1 := sideQ;
      }
    }
    f := Line(l.p3, l.p2, p1, p0, q0, q1, l.q2, l.q3);
  }

  /** The two thresholds, from the tables. */
  method Thresholds(p: Params) returns (beta: int, tc: int)
    ensures beta == BetaOf(p) && tc == TcOf(p)
  {
    var qpLuma := (p.qpP + p.qpQ + 1) / 2;
    var betaIndex := Clip3(qpLuma + p.betaOffsetDiv2 * 2, 0, 51);
    var tcIndex := Clip3(qpLuma + 2 * (p.bs / 2) + p.tcOffsetDiv2 * 2, 0, 53);
    BetaTable(betaIndex);
    TcTable(tcIndex);
    return BETA_TABLE[betaIndex], TC_TABLE[tcIndex];
  }

  /** One row of the vertical-edge loop. */
  method RowVert(pic: array<int>, at: nat, d: Decision, tc: int, filterP: bool, filterQ: bool)
    requires 4 <= at && at + 3 < pic.Length && tc >= 0 && (d.de == 1 || d.de == 2)
    modifies pic
    ensures LineAt(pic[..], at, 1) == FilterLine(LineAt(old(pic[..]), at, 1), d, tc, filterP, filterQ)
    ensures forall i | 0 <= i < pic.Length && !(at - 3 <= i < at + 3) :: pic[i] == old(pic[i])
  {
    var f := Taps(LineAt(pic[..], at, 1), d, tc);
    if filterP {
      pic[at - 3] := f.p2;
      pic[at - 2] := f.p1;
      pic[at - 1] := f.p0;
    }
    if filterQ {
      pic[at] := f.q0;
      pic[at + 1] := f.q1;
      pic[at + 2] := f.q2;
    }
  }

  /** One column of the horizontal-edge loop. */
  method ColumnHorz(pic: array<int>, at: nat, strd: nat, d: Decision, tc: int, filterP: bool, filterQ: bool)
    requires strd > 0 && 4 * strd <= at && at + 3 * strd < pic.Length && tc >= 0 && (d.de == 1 || d.de == 2)
    modifies pic
    ensures LineAt(pic[..], at, strd) == FilterLine(LineAt(old(pic[..]), at, strd), d, tc, filterP, filterQ)
    ensures forall i | 0 <= i < pic.Length && OffColumn(i, at, strd) :: pic[i] == old(pic[i])
  {
    var f := Taps(LineAt(pic[..], at, strd), d, tc);
    if filterP {
      pic[at - 3 * strd] := f.p2;
      pic[at - 2 * strd] := f.p1;
      pic[at - 1 * strd] := f.p0;
    }
    if filterQ {
      pic[at + 0 * strd] := f.q0;
      pic[at + 1 * strd] := f.q1;
      pic[at + 2 * strd] := f.q2;
    }
  }

  /** Line k is filtered if it comes before `done`, and otherwise as it was. */
  ghost predicate LineIs(s: seq<int>, was: Four, out: Four, at: int, line: int, tap: int, done: nat, k: nat)
    requires tap > 0 && line > 0 && 0 <= at - 4 * tap && at + 3 * line + 3 * tap < |s| && k < 4
  {
    LineAt(s, Start(at, line, k), tap) == if k < done then out.Nth(k) else was.Nth(k)
  }

  /** Lines before `done` have been filtered, the others are still as they were. */
  ghost predicate Progress(s: seq<int>, was: Four, out: Four, at: int, line: int, tap: int, done: nat)
    requires tap > 0 && line > 0 && 0 <= at - 4 * tap && at + 3 * line + 3 * tap < |s|
  {
    && LineIs(s, was, out, at, line, tap, done, 0) && LineIs(s, was, out, at, line, tap, done, 1)
    && LineIs(s, was, out, at, line, tap, done, 2) && LineIs(s, was, out, at, line, tap, done, 3)
  }

  /** Before the first line nothing is filtered; after the last one the segment is. */
  lemma ProgressEnds(s: seq<int>, was: Four, out: Four, at: int, line: int, tap: int)
    requires tap > 0 && line > 0 && 0 <= at - 4 * tap && at + 3 * line + 3 * tap < |s|
    ensures Lines(s, at, line, tap) == was ==> Progress(s, was, out, at, line, tap, 0)
    ensures Progress(s, was, out, at, line, tap, 4) ==> Lines(s, at, line, tap) == out
  {
  }

  lemma NextLine(s: seq<int>, was: Four, out: Four, at: int, line: int, tap: int, done: nat)
    requires tap > 0 && line > 0 && 0 <= at - 4 * tap && at + 3 * line + 3 * tap < |s| && done < 4
    requires Progress(s, was, out, at, line, tap, done)
    ensures LineAt(s, Start(at, line, done), tap) == was.Nth(done)
  {
    assert LineIs(s, was, out, at, line, tap, done, done);
  }

  lemma BytesLine(s: seq<int>, at: int, tap: int)
    requires tap > 0 && 0 <= at - 4 * tap && at + 3 * tap < |s| && AllBytes(s)
    ensures Bytes(LineAt(s, at, tap))
  {
  }

  /** A segment that is not filtered at all. */
  lemma Untouched(ls: Four, p: Params)
    requires TcOf(p) == 0 || DecideShort(ls.l0, ls.l3, BetaOf(p), TcOf(p)).de == 0
    ensures Segment(ls, p) == ls
  {
    var d := Decide(ls.l0, ls.l3, BetaOf(p), TcOf(p));
    if TcOf(p) == 0 {
      ZeroTcNeutral(ls.l0, d, p.filterP, p.filterQ);
      ZeroTcNeutral(ls.l1, d, p.filterP, p.filterQ);
      ZeroTcNeutral(ls.l2, d, p.filterP, p.filterQ);
      ZeroTcNeutral(ls.l3, d, p.filterP, p.filterQ);
    }
  }

  /** All samples of the segment are bytes. */
  predicate FourBytes(ls: Four) {
    Bytes(ls.l0) && Bytes(ls.l1) && Bytes(ls.l2) && Bytes(ls.l3)
  }

  lemma BytesLines(s: seq<int>, at: int, line: int, tap: int)
    requires tap > 0 && line > 0 && 0 <= at - 4 * tap && at + 3 * line + 3 * tap < |s| && AllBytes(s)
    ensures FourBytes(Lines(s, at, line, tap))
  {
    BytesLine(s, at, tap);
    BytesLine(s, at + line, tap);
    BytesLine(s, at + 2 * line, tap);
    BytesLine(s, at + 3 * line, tap);
  }

  lemma SegmentBytes(ls: Four, p: Params)
    requires FourBytes(ls)
    ensures FourBytes(Segment(ls, p))
  {
    var d := Decide(ls.l0, ls.l3, BetaOf(p), TcOf(p));
    FilterLineBytes(ls.l0, d, TcOf(p), p.filterP, p.filterQ);
    FilterLineBytes(ls.l1, d, TcOf(p), p.filterP, p.filterQ);
    FilterLineBytes(ls.l2, d, TcOf(p), p.filterP, p.filterQ);
    FilterLineBytes(ls.l3, d, TcOf(p), p.filterP, p.filterQ);
  }

  /** d is the shortened decision for the segment. */
  predicate Decided(d: Decision, ls: Four, tc: int, p: Params) {
    tc == TcOf(p) && d == DecideShort(ls.l0, ls.l3, BetaOf(p), tc)
  }

  lemma ShortDecided(l: Line, l0: Line, l3: Line, d: Decision, tc: int, p: Params)
    requires Bytes(l) && tc == TcOf(p) && d == DecideShort(l0, l3, BetaOf(p), tc)
    ensures FilterLine(l, d, tc, p.filterP, p.filterQ) == LumaLine(l, l0, l3, p)
  {
    ShortNeutral(l, l0, l3, p);
  }

  lemma DecidedLine(d: Decision, ls: Four, tc: int, p: Params, k: nat)
    requires Decided(d, ls, tc, p) && FourBytes(ls) && k < 4
    ensures FilterLine(ls.Nth(k), d, tc, p.filterP, p.filterQ) == Segment(ls, p).Nth(k)
  {
    ShortDecided(ls.Nth(k), ls.l0, ls.l3, d, tc, p);
  }

  predicate IsFiltered(f: Line, l: Line, d: Decision, tc: int, p: Params) {
    f == FilterLine(l, d, tc, p.filterP, p.filterQ)
  }

  /** Every line of `out` is the filtered line of `was`. */
  predicate Outcome(out: Four, was: Four, d: Decision, tc: int, p: Params) {
    forall k | 0 <= k < 4 :: IsFiltered(out.Nth(k), was.Nth(k), d, tc, p)
  }

  lemma SegmentOutcome(d: Decision, ls: Four, tc: int, p: Params)
    requires Decided(d, ls, tc, p) && FourBytes(ls)
    ensures Outcome(Segment(ls, p), ls, d, tc, p)
  {
    forall k | 0 <= k < 4
      ensures IsFiltered(Segment(ls, p).Nth(k), ls.Nth(k), d, tc, p)
    {
      DecidedLine(d, ls, tc, p, k);
    }
  }

  /** i is not among the samples a vertical-edge call may write. */
  predicate ApartVert(i: int, at: int, strd: int) {
    && !(at - 3 <= i < at + 3) && !(at + strd - 3 <= i < at + strd + 3)
    && !(at + 2 * strd - 3 <= i < at + 2 * strd + 3) && !(at + 3 * strd - 3 <= i < at + 3 * strd + 3)
  }

  lemma ProgressVert(s: seq<int>, u: seq<int>, was: Four, out: Four, at: int, strd: int, row: nat)
    requires 8 <= strd && 4 <= at && at + 3 * strd + 3 < |s| == |u| && row < 4
    requires Progress(s, was, out, at, strd, 1, row)
    requires var cur := Start(at, strd, row);
      && LineAt(u, cur, 1) == out.Nth(row)
      && forall i | 0 <= i < |s| && !(cur - 3 <= i < cur + 3) :: u[i] == s[i]
    ensures Progress(u, was, out, at, strd, 1, row + 1)
  {
  }

  /** One iteration of the loop below: one more line of the segment is done. */
  method RowStep(pic: array<int>, at: nat, strd: nat, cur: nat, d: Decision, tc: int, p: Params,
                 ghost was: Four, ghost out: Four, ghost row: nat)
    requires 8 <= strd && 4 <= at && at + 3 * strd + 3 < pic.Length && row < 4 && cur == Start(at, strd, row)
    requires tc >= 0 && (d.de == 1 || d.de == 2) && Outcome(out, was, d, tc, p)
    requires Progress(pic[..], was, out, at, strd, 1, row)
    modifies pic
    ensures Progress(pic[..], was, out, at, strd, 1, row + 1)
    ensures forall i | 0 <= i < pic.Length && ApartVert(i, at, strd) :: pic[i] == old(pic[i])
  {
    ghost var s := pic[..];
    NextLine(s, was, out, at, strd, 1, row);
    assert IsFiltered(out.Nth(row), was.Nth(row), d, tc, p);
    RowVert(pic, cur, d, tc, p.filterP, p.filterQ);
    ProgressVert(s, pic[..], was, out, at, strd, row);
  }

  /** The filtering loop over the four lines of a vertical edge. */
  method FilterRows(pic: array<int>, at: nat, strd: nat, d: Decision, tc: int, p: Params,
                    ghost was: Four, ghost out: Four)
    requires 8 <= strd && 4 <= at && at + 3 * strd + 3 < pic.Length
    requires tc >= 0 && (d.de == 1 || d.de == 2) && Outcome(out, was, d, tc, p)
    requires Progress(pic[..], was, out, at, strd, 1, 0)
    modifies pic
    ensures Progress(pic[..], was, out, at, strd, 1, 4)
    ensures forall i | 0 <= i < pic.Length && ApartVert(i, at, strd) :: pic[i] == old(pic[i])
  {
    ghost var s0 := pic[..];
    var cur := at;
    for row := 0 to 4
      invariant cur == Start(at, strd, row) && Progress(pic[..], was, out, at, strd, 1, row)
      invariant forall i | 0 <= i < pic.Length && ApartVert(i, at, strd) :: pic[i] == s0[i]
    {
      RowStep(pic, at, strd, cur, d, tc, p, was, out, row);
      cur := cur + strd;
    }
  }

  lemma LineBytes(u: seq<int>, cur: int, tap: int, i: int)
    requires tap > 0 && 0 <= cur - 4 * tap && cur + 3 * tap < |u| && Bytes(LineAt(u, cur, tap))
    requires i == cur - 3 * tap || i == cur - 2 * tap || i == cur - tap
          || i == cur || i == cur + tap || i == cur + 2 * tap
    ensures 0 <= i < |u| && 0 <= u[i] < 256
  {
  }

  /** What a vertical-edge call leaves is bytes again. */
  lemma KeepsBytesVert(s: seq<int>, u: seq<int>, at: int, strd: int, p: Params)
    requires 8 <= strd && 4 <= at && at + 3 * strd + 3 < |s| == |u| && AllBytes(s)
    requires Lines(u, at, strd, 1) == Segment(Lines(s, at, strd, 1), p)
    requires forall i | 0 <= i < |s| && ApartVert(i, at, strd) :: u[i] == s[i]
    ensures AllBytes(u)
  {
    BytesLines(s, at, strd, 1);
    SegmentBytes(Lines(s, at, strd, 1), p);
    forall i | 0 <= i < |u|
      ensures 0 <= u[i] < 256
    {
      if at - 3 <= i < at + 3 { LineBytes(u, at, 1, i); }
      else if at + strd - 3 <= i < at + strd + 3 { LineBytes(u, at + strd, 1, i); }
      else if at + 2 * strd - 3 <= i < at + 2 * strd + 3 { LineBytes(u, at + 2 * strd, 1, i); }
      else if at + 3 * strd - 3 <= i < at + 3 * strd + 3 { LineBytes(u, at + 3 * strd, 1, i); }
      else { assert ApartVert(i, at, strd); }
    }
  }

  /** The filtering loop, on the whole segment. */
  method SegmentVert(pic: array<int>, at: nat, strd: nat, d: Decision, tc: int, p: Params)
    requires 8 <= strd && 4 <= at && at + 3 * strd + 3 < pic.Length && AllBytes(pic[..])
    requires d.de != 0 && Decided(d, Lines(pic[..], at, strd, 1), tc, p)
    modifies pic
    ensures Lines(pic[..], at, strd, 1) == Segment(Lines(old(pic[..]), at, strd, 1), p)
    ensures forall i | 0 <= i < pic.Length && ApartVert(i, at, strd) :: pic[i] == old(pic[i])
    ensures AllBytes(pic[..])
  {
    ghost var s := pic[..];
    ghost var was := Lines(s, at, strd, 1);
    BytesLines(s, at, strd, 1);
    ghost var out := Segment(was, p);
    SegmentOutcome(d, was, tc, p);
    ProgressEnds(s, was, out, at, strd, 1);
    FilterRows(pic, at, strd, d, tc, p, was, out);
    ProgressEnds(pic[..], was, out, at, strd, 1);
    KeepsBytesVert(s, pic[..], at, strd, p);
  }

  /** ihevc_deblk_luma_vert. */
  method LumaVert(pic: array<int>, at: nat, strd: nat, p: Params)
    requires 8 <= strd && 4 <= at && at + 3 * strd + 3 < pic.Length && AllBytes(pic[..])
    modifies pic
    ensures Lines(pic[..], at, strd, 1) == Segment(Lines(old(pic[..]), at, strd, 1), p)
    ensures forall i | 0 <= i < pic.Length && ApartVert(i, at, strd) :: pic[i] == old(pic[i])
    ensures AllBytes(pic[..])
  {
    var beta, tc := Thresholds(p);
    if tc == 0 {
      Untouched(Lines(pic[..], at, strd, 1), p);
      return;
    }
    var d := DecideShort(LineAt(pic[..], at, 1), LineAt(pic[..], at + 3 * strd, 1), beta, tc);
    if d.de == 0 {
      Untouched(Lines(pic[..], at, strd, 1), p);
    } else {
      SegmentVert(pic, at, strd, d, tc, p);
    }
  }

  /** i is not among the samples a horizontal-edge call may write. */
  predicate ApartHorz(i: int, at: int, strd: int) {
    && !(at - 3 * strd <= i < at - 3 * strd + 4) && !(at - 2 * strd <= i < at - 2 * strd + 4)
    && !(at - strd <= i < at - strd + 4) && !(at <= i < at + 4)
    && !(at + strd <= i < at + strd + 4) && !(at + 2 * strd <= i < at + 2 * strd + 4)
  }

  /** i is not in the column of samples that one iteration of the horizontal-edge loop writes. */
  predicate OffColumn(i: int, cur: int, strd: int) {
    && i != cur - 3 * strd && i != cur - 2 * strd && i != cur - strd
    && i != cur && i != cur + strd && i != cur + 2 * strd
  }

  lemma ColumnIs(s: seq<int>, u: seq<int>, was: Four, out: Four, at: int, strd: int, col: nat, cur: int, k: nat)
    requires 4 <= strd && 4 * strd <= at && at + 3 * strd + 3 < |s| == |u| && col < 4 && cur == at + col && k < 4
    requires LineIs(s, was, out, at, 1, strd, col, k)
    requires LineAt(u, cur, strd) == out.Nth(col)
    requires forall i | 0 <= i < |s| && OffColumn(i, cur, strd) :: u[i] == s[i]
    ensures LineIs(u, was, out, at, 1, strd, col + 1, k)
  {
  }

  lemma ProgressHorz(s: seq<int>, u: seq<int>, was: Four, out: Four, at: int, strd: int, col: nat, cur: int)
    requires 4 <= strd && 4 * strd <= at && at + 3 * strd + 3 < |s| == |u| && col < 4 && cur == at + col
    requires Progress(s, was, out, at, 1, strd, col)
    requires LineAt(u, cur, strd) == out.Nth(col)
    requires forall i | 0 <= i < |s| && OffColumn(i, cur, strd) :: u[i] == s[i]
    ensures Progress(u, was, out, at, 1, strd, col + 1)
  {
    ColumnIs(s, u, was, out, at, strd, col, cur, 0);
    ColumnIs(s, u, was, out, at, strd, col, cur, 1);
    ColumnIs(s, u, was, out, at, strd, col, cur, 2);
    ColumnIs(s, u, was, out, at, strd, col, cur, 3);
  }

  lemma ApartIsOff(at: int, strd: int, col: nat)
    requires 4 <= strd && col < 4
    ensures forall i | ApartHorz(i, at, strd) :: OffColumn(i, at + col, strd)
  {
  }

  /** One column, with the line it holds and the line it is to hold. */
  method ColumnOf(pic: array<int>, cur: nat, strd: nat, d: Decision, tc: int, p: Params,
                  ghost was: Line, ghost out: Line)
    requires strd > 0 && 4 * strd <= cur && cur + 3 * strd < pic.Length && tc >= 0 && (d.de == 1 || d.de == 2)
    requires LineAt(pic[..], cur, strd) == was && IsFiltered(out, was, d, tc, p)
    modifies pic
    ensures LineAt(pic[..], cur, strd) == out
    ensures forall i | 0 <= i < pic.Length && OffColumn(i, cur, strd) :: pic[i] == old(pic[i])
  {
    ColumnHorz(pic, cur, strd, d, tc, p.filterP, p.filterQ);
  }

  /** One iteration of the loop below: one more line of the segment is done. */
  method ColumnStep(pic: array<int>, at: nat, strd: nat, cur: nat, d: Decision, tc: int, p: Params,
                    ghost was: Four, ghost out: Four, ghost col: nat)
    requires 4 <= strd && 4 * strd <= at && at + 3 * strd + 3 < pic.Length && col < 4 && cur == at + col
    requires tc >= 0 && (d.de == 1 || d.de == 2) && Outcome(out, was, d, tc, p)
    requires Progress(pic[..], was, out, at, 1, strd, col)
    modifies pic
    ensures Progress(pic[..], was, out, at, 1, strd, col + 1)
    ensures forall i | 0 <= i < pic.Length && ApartHorz(i, at, strd) :: pic[i] == old(pic[i])
  {
    ghost var s := pic[..];
    NextLine(s, was, out, at, 1, strd, col);
    assert IsFiltered(out.Nth(col), was.Nth(col), d, tc, p);
    ColumnOf(pic, cur, strd, d, tc, p, was.Nth(col), out.Nth(col));
    ProgressHorz(s, pic[..], was, out, at, strd, col, cur);
    ApartIsOff(at, strd, col);
  }

  /** The filtering loop over the four lines of a horizontal edge. */
  method FilterColumns(pic: array<int>, at: nat, strd: nat, d: Decision, tc: int, p: Params,
                    ghost was: Four, ghost out: Four)
    requires 4 <= strd && 4 * strd <= at && at + 3 * strd + 3 < pic.Length
    requires tc >= 0 && (d.de == 1 || d.de == 2) && Outcome(out, was, d, tc, p)
    requires Progress(pic[..], was, out, at, 1, strd, 0)
    modifies pic
    ensures Progress(pic[..], was, out, at, 1, strd, 4)
    ensures forall i | 0 <= i < pic.Length && ApartHorz(i, at, strd) :: pic[i] == old(pic[i])
  {
    ghost var s0 := pic[..];
    var cur := at;
    for col := 0 to 4
      invariant cur == at + col && Progress(pic[..], was, out, at, 1, strd, col)
      invariant forall i | 0 <= i < pic.Length && ApartHorz(i, at, strd) :: pic[i] == s0[i]
    {
      ColumnStep(pic, at, strd, cur, d, tc, p, was, out, col);
      cur := cur + 1;
    }
  }

  /** The column of a sample that a horizontal-edge call may write. */
  lemma HorzColumn(i: int, at: int, strd: int) returns (k: nat)
    requires 4 <= strd && !ApartHorz(i, at, strd)
    ensures k < 4
    ensures var cur := at + k;
      i == cur - 3 * strd || i == cur - 2 * strd || i == cur - strd
      || i == cur || i == cur + strd || i == cur + 2 * strd
  {
    var t := if at - 3 * strd <= i < at - 3 * strd + 4 then at - 3 * strd
             else if at - 2 * strd <= i < at - 2 * strd + 4 then at - 2 * strd
             else if at - strd <= i < at - strd + 4 then at - strd
             else if at <= i < at + 4 then at
             else if at + strd <= i < at + strd + 4 then at + strd else at + 2 * strd;
    k := i - t;
  }

  /** What a horizontal-edge call leaves is bytes again. */
  lemma KeepsBytesHorz(s: seq<int>, u: seq<int>, at: int, strd: int, p: Params)
    requires 4 <= strd && 4 * strd <= at && at + 3 * strd + 3 < |s| == |u| && AllBytes(s)
    requires Lines(u, at, 1, strd) == Segment(Lines(s, at, 1, strd), p)
    requires forall i | 0 <= i < |s| && ApartHorz(i, at, strd) :: u[i] == s[i]
    ensures AllBytes(u)
  {
    BytesLines(s, at, 1, strd);
    SegmentBytes(Lines(s, at, 1, strd), p);
    forall i | 0 <= i < |u|
      ensures 0 <= u[i] < 256
    {
      if !ApartHorz(i, at, strd) {
        var k := HorzColumn(i, at, strd);
        ColumnBytes(u, at, strd, k);
        LineBytes(u, at + k, strd, i);
      }
    }
  }

  lemma ColumnBytes(u: seq<int>, at: int, strd: int, k: nat)
    requires 4 <= strd && 4 * strd <= at && at + 3 * strd + 3 < |u| && FourBytes(Lines(u, at, 1, strd)) && k < 4
    ensures Bytes(LineAt(u, at + k, strd))
  {
    if k == 0 {} else if k == 1 {} else if k == 2 {} else {}
  }

  /** The filtering loop, on the whole segment. */
  method SegmentHorz(pic: array<int>, at: nat, strd: nat, d: Decision, tc: int, p: Params)
    requires 4 <= strd && 4 * strd <= at && at + 3 * strd + 3 < pic.Length && AllBytes(pic[..])
    requires d.de != 0 && Decided(d, Lines(pic[..], at, 1, strd), tc, p)
    modifies pic
    ensures Lines(pic[..], at, 1, strd) == Segment(Lines(old(pic[..]), at, 1, strd), p)
    ensures forall i | 0 <= i < pic.Length && ApartHorz(i, at, strd) :: pic[i] == old(pic[i])
    ensures AllBytes(pic[..])
  {
    ghost var s := pic[..];
    ghost var was := Lines(s, at, 1, strd);
    BytesLines(s, at, 1, strd);
    ghost var out := Segment(was, p);
    SegmentOutcome(d, was, tc, p);
    ProgressEnds(s, was, out, at, 1, strd);
    FilterColumns(pic, at, strd, d, tc, p, was, out);
    ProgressEnds(pic[..], was, out, at, 1, strd);
    KeepsBytesHorz(s, pic[..], at, strd, p);
  }

  /** ihevc_deblk_luma_horz. */
  method LumaHorz(pic: array<int>, at: nat, strd: nat, p: Params)
    requires 4 <= strd && 4 * strd <= at && at + 3 * strd + 3 < pic.Length && AllBytes(pic[..])
    modifies pic
    ensures Lines(pic[..], at, 1, strd) == Segment(Lines(old(pic[..]), at, 1, strd), p)
    ensures forall i | 0 <= i < pic.Length && ApartHorz(i, at, strd) :: pic[i] == old(pic[i])
    ensures AllBytes(pic[..])
  {
    var beta, tc := Thresholds(p);
    if tc == 0 {
      Untouched(Lines(pic[..], at, 1, strd), p);
      return;
    }
    var d := DecideShort(LineAt(pic[..], at, strd), LineAt(pic[..], at + 3, strd), beta, tc);
    if d.de == 0 {
      Untouched(Lines(pic[..], at, 1, strd), p);
    } else {
      SegmentHorz(pic, at, strd, d, tc, p);
    }
  }
}
