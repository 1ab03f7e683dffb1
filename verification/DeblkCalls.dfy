/** Calls of the luma deblocking functions one after the other on one picture buffer. */
module DeblkCalls {
  import opened Common
  import opened DeblkFilter
  import opened DeblkLuma
  import opened DeblkOrder
  import opened DeblkBuffer
  import opened Reorder

  /** The edge lies on the grid of its direction, inside a picture of h rows and w columns. */
  predicate Fits(e: LumaEdge, h: nat, w: nat, vertical: bool) {
    if vertical then OnGrid(e, h, w) else OnGridHorz(e, h, w)
  }

  method FilterVert(pic: array<int>, w: nat, h: nat, e: LumaEdge)
    requires pic.Length == At(0, w, h) && AllBytes(pic[..]) && Inside(e, h, w)
    modifies pic
    ensures AllBytes(pic[..]) && Rows(pic[..], w, h) == ApplyVert(Rows(old(pic[..]), w, h), e, w)
  {
    ghost var s := pic[..];
    VertFits(w, h, e);
    LumaVert(pic, At(0, w, e.y) + e.x, w, e.p);
    VertCall(s, pic[..], w, h, e);
  }

  method FilterHorz(pic: array<int>, w: nat, h: nat, e: LumaEdge)
    requires pic.Length == At(0, w, h) && AllBytes(pic[..]) && Inside(Turn(e), w, h)
    modifies pic
    ensures AllBytes(pic[..]) && Rows(pic[..], w, h) == ApplyHorz(Rows(old(pic[..]), w, h), e, w)
  {
    ghost var s := pic[..];
    HorzFits(w, h, e);
    LumaHorz(pic, At(0, w, e.y) + e.x, w, e.p);
    HorzCall(s, pic[..], w, h, e);
  }

  /** One call at an edge of the grid is one step on the picture. */
  method FilterEdge(pic: array<int>, w: nat, h: nat, e: LumaEdge, vertical: bool)
    requires pic.Length == At(0, w, h) && AllBytes(pic[..]) && Fits(e, h, w, vertical)
    modifies pic
    ensures AllBytes(pic[..]) && Rows(pic[..], w, h) == Step(Rows(old(pic[..]), w, h), e, w, vertical)
  {
    if vertical {
      FilterVert(pic, w, h, e);
    } else {
      FilterHorz(pic, w, h, e);
    }
  }

  /** Calls at any list of edges are the steps of that list on the picture. */
  method FilterEdges(pic: array<int>, w: nat, h: nat, es: seq<LumaEdge>, vertical: bool)
    requires pic.Length == At(0, w, h) && AllBytes(pic[..])
    requires forall i | 0 <= i < |es| :: Fits(es[i], h, w, vertical)
    modifies pic
    ensures AllBytes(pic[..]) && Rows(pic[..], w, h) == Run(StepOf(Step, w, vertical), Rows(old(pic[..]), w, h), es)
  {
    ghost var f, all := StepOf(Step, w, vertical), Run(StepOf(Step, w, vertical), Rows(pic[..], w, h), es);
    for i := 0 to |es|
      invariant AllBytes(pic[..]) && all == Run(f, Rows(pic[..], w, h), es[i..])
    {
      ghost var was := Rows(pic[..], w, h);
      FilterEdge(pic, w, h, es[i], vertical);
      assert f(was, es[i]) == Rows(pic[..], w, h);
      assert es[i..][0] == es[i] && es[i..][1..] == es[i + 1..];
    }
  }

  lemma {:induction false} RowOfIndex(w: nat, h: nat, i: nat) returns (y: nat)
    requires i < At(0, w, h)
    ensures y < h && At(0, w, y) <= i < At(0, w, y) + w
  {
    if At(0, w, h - 1) <= i { y := h - 1; } else { y := RowOfIndex(w, h - 1, i); }
  }

  /** A buffer is determined by its rows. */
  lemma RowsDetermine(s: seq<int>, u: seq<int>, w: nat, h: nat)
    requires |s| == |u| == At(0, w, h) && Rows(s, w, h) == Rows(u, w, h)
    ensures s == u
  {
    forall i | 0 <= i < |s|
      ensures s[i] == u[i]
    {
      var y := RowOfIndex(w, h, i);
      assert RowOf(s, w, h, y) == RowOf(u, w, h, y);
      assert RowOf(s, w, h, y)[i - At(0, w, y)] == s[i] && RowOf(u, w, h, y)[i - At(0, w, y)] == u[i];
    }
  }

  /** Two buffers that start equal and are filtered at the same distinct edges, each in an order
      of its own, end equal. */
  method FilterInAnyOrder(a: array<int>, b: array<int>, w: nat, h: nat, es: seq<LumaEdge>, fs: seq<LumaEdge>,
                          vertical: bool)
    requires a != b && a.Length == At(0, w, h) && AllBytes(a[..]) && b[..] == a[..]
    requires forall i | 0 <= i < |es| :: Fits(es[i], h, w, vertical)
    requires Distinct(es, Position) && multiset(es) == multiset(fs)
    modifies a, b
    ensures b[..] == a[..]
  {
    ghost var pic := Rows(a[..], w, h);
    forall i | 0 <= i < |fs|
      ensures Fits(fs[i], h, w, vertical)
    {
      assert fs[i] in multiset(fs);
      assert fs[i] in es;
    }
    FilterEdges(a, w, h, es, vertical);
    FilterEdges(b, w, h, fs, vertical);
    StepsOrderly();
    OrderIrrelevant(Step, pic, es, fs, w, vertical);
    RowsDetermine(a[..], b[..], w, h);
  }

  /** Two buffers that hold transposed pictures hold transposed pictures after filtering one at a
      vertical edge and the other at the same edge turned. */
  method FilterTransposed(a: array<int>, b: array<int>, w: nat, h: nat, e: LumaEdge)
    requires a != b && Inside(e, h, w) && a.Length == At(0, w, h) && b.Length == At(0, h, w)
    requires AllBytes(a[..]) && AllBytes(b[..]) && Rows(b[..], h, w) == Transposed(Rows(a[..], w, h), w)
    modifies a, b
    ensures Rows(b[..], h, w) == Transposed(Rows(a[..], w, h), w)
  {
    ghost var s := a[..];
    FilterVert(a, w, h, e);
    FilterHorz(b, h, w, Turn(e));
    HorzIsTransposedVert(Rows(s, w, h), e, w);
  }
}
