/** The display manager: pictures waiting for output, taken in order of picture order count. */
module DispMgr {
  import opened Common

  const DISP_MGR_MAX_CNT: nat := 64
  const DEFAULT_POC: int32 := 0x7FFF_FFFF

  /** The content of the manager: a slot with DEFAULT_POC is not waiting, address 0 is NULL. */
  datatype Slots = Slots(poc: seq<int32>, ptr: seq<nat>) {
    predicate Valid() { |poc| == |ptr| == DISP_MGR_MAX_CNT }

    predicate Waits(id: nat)
      requires Valid() && id < DISP_MGR_MAX_CNT
    {
      poc[id] != DEFAULT_POC
    }

    /** Every slot is either wholly set or wholly clear. */
    predicate Proper()
      requires Valid()
    {
      forall id | 0 <= id < DISP_MGR_MAX_CNT :: Waits(id) <==> ptr[id] != 0
    }
  }

  datatype Frame = Frame(id: nat, poc: int32, ptr: nat)

  function Empty(): (s: Slots)
    ensures s.Valid()
  {
    Slots(seq(DISP_MGR_MAX_CNT, _ => DEFAULT_POC), seq(DISP_MGR_MAX_CNT, _ => 0))
  }

  /** The frames that wait for output. */
  ghost function Pending(s: Slots): (w: set<Frame>)
    requires s.Valid()
  {
    set id | 0 <= id < DISP_MGR_MAX_CNT && s.Waits(id) :: Frame(id, s.poc[id], s.ptr[id])
  }

  lemma InPending(s: Slots, f: Frame)
    requires s.Valid()
    ensures f in Pending(s) <==>
      f.id < DISP_MGR_MAX_CNT && s.Waits(f.id) && f.poc == s.poc[f.id] && f.ptr == s.ptr[f.id]
  {
    if f.id < DISP_MGR_MAX_CNT && s.Waits(f.id) && f.poc == s.poc[f.id] && f.ptr == s.ptr[f.id] {
      assert f == Frame(f.id, s.poc[f.id], s.ptr[f.id]);
    }
  }

  predicate CanAdd(s: Slots, id: nat)
    requires s.Valid()
  {
    id < DISP_MGR_MAX_CNT && s.ptr[id] == 0
  }

  function Added(s: Slots, f: Frame): (u: Slots)
    requires s.Valid()
    ensures u.Valid()
  {
    if CanAdd(s, f.id) then Slots(s.poc[f.id := f.poc], s.ptr[f.id := f.ptr]) else s
  }

  /** The choice among the first n slots, -1 if none waits: a later slot wins a tie. */
  function Best(s: Slots, n: nat): (b: int)
    requires s.Valid() && n <= DISP_MGR_MAX_CNT
    ensures -1 <= b < n && (b >= 0 ==> s.Waits(b))
  {
    if n == 0 then -1
    else
      var b := Best(s, n - 1);
      if s.Waits(n - 1) && (b == -1 || s.poc[n - 1] <= s.poc[b]) then n - 1 else b
  }

  function Next(s: Slots): (f: Frame)
    requires s.Valid() && Best(s, DISP_MGR_MAX_CNT) >= 0
  {
    var b := Best(s, DISP_MGR_MAX_CNT);
    Frame(b, s.poc[b], s.ptr[b])
  }

  function Taken(s: Slots): (u: Slots)
    requires s.Valid()
    ensures u.Valid()
  {
    var b := Best(s, DISP_MGR_MAX_CNT);
    if b == -1 then s else Slots(s.poc[b := DEFAULT_POC], s.ptr[b := 0])
  }

  // The priority queue.

  /** f is due before g: a smaller count, or the same count and a larger id. */
  predicate Before(f: Frame, g: Frame) { f.poc < g.poc || (f.poc == g.poc && g.id <= f.id) }

  lemma {:induction false} BestIsMinimum(s: Slots, n: nat, id: nat)
    requires s.Valid() && id < n <= DISP_MGR_MAX_CNT && s.Waits(id)
    ensures var b := Best(s, n);
      b >= 0 && Before(Frame(b, s.poc[b], s.ptr[b]), Frame(id, s.poc[id], s.ptr[id]))
  {
    if id < n - 1 { BestIsMinimum(s, n - 1, id); }
  }

  /** Taking finds the first frame of the queue, and finds none exactly when none waits. */
  lemma NextIsFirst(s: Slots)
    requires s.Valid()
    ensures Best(s, DISP_MGR_MAX_CNT) == -1 <==> Pending(s) == {}
    ensures Best(s, DISP_MGR_MAX_CNT) >= 0 ==> Next(s) in Pending(s) && forall g | g in Pending(s) :: Before(Next(s), g)
  {
    var b := Best(s, DISP_MGR_MAX_CNT);
    if b >= 0 {
      assert Next(s) in Pending(s);
    }
    forall g | g in Pending(s)
      ensures b >= 0 && Before(Next(s), g)
    {
      BestIsMinimum(s, DISP_MGR_MAX_CNT, g.id);
    }
  }

  /** Taking removes just that frame. */
  lemma TakenRemoves(s: Slots)
    requires s.Valid() && s.Proper() && Pending(s) != {}
    ensures Best(s, DISP_MGR_MAX_CNT) >= 0 && Taken(s).Proper()
    ensures Pending(Taken(s)) == Pending(s) - {Next(s)}
  {
    NextIsFirst(s);
    var u, b := Taken(s), Best(s, DISP_MGR_MAX_CNT);
    forall f: Frame
      ensures f in Pending(u) <==> f in Pending(s) - {Next(s)}
    {
      InPending(u, f);
      InPending(s, f);
    }
  }

  /** Adding a frame with an address and a real count inserts just that frame. */
  lemma AddedInserts(s: Slots, f: Frame)
    requires s.Valid() && s.Proper() && CanAdd(s, f.id) && f.ptr != 0 && f.poc != DEFAULT_POC
    ensures f !in Pending(s) && Added(s, f).Proper() && Pending(Added(s, f)) == Pending(s) + {f}
  {
    var u := Added(s, f);
    InPending(s, f);
    forall g: Frame
      ensures g in Pending(u) <==> g in Pending(s) + {f}
    {
      InPending(u, g);
      InPending(s, g);
    }
  }

  /** A successful add keeps the slots whole exactly when the caller gives both an address and a
      real count, or neither. */
  lemma AddedProper(s: Slots, f: Frame)
    requires s.Valid() && s.Proper() && CanAdd(s, f.id)
    ensures Added(s, f).Proper() <==> (f.ptr != 0 <==> f.poc != DEFAULT_POC)
  {
    var u := Added(s, f);
    assert u.Waits(f.id) <==> f.poc != DEFAULT_POC;
    forall id | 0 <= id < DISP_MGR_MAX_CNT && id != f.id
      ensures u.Waits(id) <==> u.ptr[id] != 0
    {
      assert s.Waits(id) <==> s.ptr[id] != 0;
    }
  }

  // Runs.

  datatype Op = Add(frame: Frame) | Get

  /** What a run of operations has done: frames accepted and frames returned, in order. */
  datatype Log = Log(slots: Slots, accepted: seq<Frame>, returned: seq<Frame>)

  function Exec(l: Log, op: Op): (m: Log)
    requires l.slots.Valid()
    ensures m.slots.Valid()
  {
    match op
    case Add(f) => Log(Added(l.slots, f), if CanAdd(l.slots, f.id) then l.accepted + [f] else l.accepted, l.returned)
    case Get =>
      Log(Taken(l.slots), l.accepted,
          if Best(l.slots, DISP_MGR_MAX_CNT) >= 0 then l.returned + [Next(l.slots)] else l.returned)
  }

  function RunFrom(l: Log, ops: seq<Op>): (m: Log)
    requires l.slots.Valid()
    ensures m.slots.Valid()
  {
    if ops == [] then l else Exec(RunFrom(l, ops[..|ops| - 1]), ops[|ops| - 1])
  }

  function Run(ops: seq<Op>): (l: Log)
    ensures l.slots.Valid()
  {
    RunFrom(Log(Empty(), [], []), ops)
  }

  /** The caller never adds NULL or the reserved count. */
  predicate WellUsed(ops: seq<Op>) {
    forall i | 0 <= i < |ops| && ops[i].Add? :: ops[i].frame.ptr != 0 && ops[i].frame.poc != DEFAULT_POC
  }

  ghost predicate Conserved(l: Log)
    requires l.slots.Valid()
  {
    l.slots.Proper() && multiset(l.accepted) == multiset(l.returned) + multiset(Pending(l.slots))
  }

  lemma AddConserves(l: Log, f: Frame)
    requires l.slots.Valid() && Conserved(l) && f.ptr != 0 && f.poc != DEFAULT_POC
    ensures Conserved(Exec(l, Add(f)))
  {
    if CanAdd(l.slots, f.id) {
      AddedInserts(l.slots, f);
      assert multiset(Pending(l.slots) + {f}) == multiset(Pending(l.slots)) + multiset{f};
    }
  }

  /** An accepted frame keeps the account if and only if it has an address and a real count. */
  lemma AddConservesExactly(l: Log, f: Frame)
    requires l.slots.Valid() && Conserved(l) && CanAdd(l.slots, f.id)
    ensures Conserved(Exec(l, Add(f))) <==> f.ptr != 0 && f.poc != DEFAULT_POC
  {
    AddedProper(l.slots, f);
    if f.ptr != 0 && f.poc != DEFAULT_POC {
      AddConserves(l, f);
    } else if f.ptr == 0 && f.poc == DEFAULT_POC {
      AbsentIsLost(l, f);
    }
  }

  /** A frame with neither is accepted and waits nowhere. */
  lemma AbsentIsLost(l: Log, f: Frame)
    requires l.slots.Valid() && Conserved(l) && CanAdd(l.slots, f.id) && f.ptr == 0 && f.poc == DEFAULT_POC
    ensures !Conserved(Exec(l, Add(f)))
  {
    var m := Exec(l, Add(f));
    forall g: Frame
      ensures g in Pending(m.slots) <==> g in Pending(l.slots)
    {
      InPending(m.slots, g);
      InPending(l.slots, g);
    }
    assert Pending(m.slots) == Pending(l.slots);
    assert |multiset(m.accepted)| == |multiset(l.accepted)| + 1;
  }

  lemma GetConserves(l: Log)
    requires l.slots.Valid() && Conserved(l)
    ensures Conserved(Exec(l, Get))
  {
    NextIsFirst(l.slots);
    if Pending(l.slots) != {} {
      TakenRemoves(l.slots);
      assert multiset(Pending(l.slots)) == multiset(Pending(l.slots) - {Next(l.slots)}) + multiset{Next(l.slots)};
    }
  }

  /** Over every interleaving, what was accepted is what was returned plus what still waits: no
      frame is lost, invented or returned twice. */
  lemma {:induction false} Conservation(ops: seq<Op>)
    requires WellUsed(ops)
    ensures Conserved(Run(ops))
  {
    if ops == [] {
      assert Pending(Empty()) == {};
    } else {
      var l, op := Run(ops[..|ops| - 1]), ops[|ops| - 1];
      assert Run(ops) == Exec(l, op);
      Conservation(ops[..|ops| - 1]);
      match op {
        case Add(f) => AddConserves(l, f);
        case Get => GetConserves(l);
      }
    }
  }

  /** Whatever follows, what is returned has a real count, and earlier returns stay. */
  lemma {:induction false} ReturnsAreReal(l: Log, ops: seq<Op>)
    requires l.slots.Valid()
    ensures var m := RunFrom(l, ops);
      l.returned <= m.returned && forall i | |l.returned| <= i < |m.returned| :: m.returned[i].poc != DEFAULT_POC
  {
    if ops != [] { ReturnsAreReal(l, ops[..|ops| - 1]); }
  }

  /** Whatever follows, a slot that is taken without waiting stays so. */
  lemma {:induction false} StaysBlocked(l: Log, id: nat, ops: seq<Op>)
    requires l.slots.Valid() && id < DISP_MGR_MAX_CNT && !CanAdd(l.slots, id) && !l.slots.Waits(id)
    ensures var m := RunFrom(l, ops); !CanAdd(m.slots, id) && !m.slots.Waits(id)
  {
    if ops != [] { StaysBlocked(l, id, ops[..|ops| - 1]); }
  }

  /** After any log, an accepted frame with the reserved count is never returned, whatever
      follows; and if it has an address, its slot is never usable again. */
  lemma DefaultPocIsLost(l: Log, f: Frame, ops: seq<Op>)
    requires l.slots.Valid() && CanAdd(l.slots, f.id) && f.poc == DEFAULT_POC
    ensures var m := RunFrom(Exec(l, Add(f)), ops);
      && l.returned <= m.returned && f !in m.returned[|l.returned|..]
      && (f.ptr != 0 ==> !CanAdd(m.slots, f.id))
  {
    ReturnsAreReal(Exec(l, Add(f)), ops);
    if f.ptr != 0 { StaysBlocked(Exec(l, Add(f)), f.id, ops); }
  }

  /** The frames that n gets return, one after the other. */
  function Drain(s: Slots, n: nat): (r: seq<Frame>)
    requires s.Valid()
    decreases n
  {
    if n == 0 || Best(s, DISP_MGR_MAX_CNT) == -1 then [] else [Next(s)] + Drain(Taken(s), n - 1)
  }

  lemma Prepended(f: Frame, t: seq<Frame>, w: set<Frame>)
    requires f in w && multiset(t) <= multiset(w - {f})
    ensures multiset([f] + t) <= multiset(w) && forall j | 0 <= j < |t| :: t[j] in w
    ensures multiset(t) == multiset(w - {f}) ==> multiset([f] + t) == multiset(w)
  {
    assert multiset(w) == multiset{f} + multiset(w - {f});
    assert multiset([f] + t) == multiset{f} + multiset(t);
    forall j | 0 <= j < |t|
      ensures t[j] in w
    {
      assert t[j] in multiset(t);
    }
  }

  predicate Ordered(r: seq<Frame>) {
    forall i, j | 0 <= i < j < |r| :: Before(r[i], r[j])
  }

  lemma OrderedPrepended(f: Frame, t: seq<Frame>)
    requires Ordered(t) && forall j | 0 <= j < |t| :: Before(f, t[j])
    ensures Ordered([f] + t)
  {
  }

  /** Draining returns pending frames only, in non-decreasing order of their counts. */
  lemma {:induction false} DrainSorted(s: Slots, n: nat)
    requires s.Valid() && s.Proper()
    ensures Ordered(Drain(s, n)) && multiset(Drain(s, n)) <= multiset(Pending(s))
    decreases n
  {
    NextIsFirst(s);
    if n > 0 && Best(s, DISP_MGR_MAX_CNT) >= 0 {
      var f, t := Next(s), Drain(Taken(s), n - 1);
      TakenRemoves(s);
      DrainSorted(Taken(s), n - 1);
      Prepended(f, t, Pending(s));
      OrderedPrepended(f, t);
    }
  }

  /** Enough gets return all of them. */
  lemma {:induction false} DrainComplete(s: Slots, n: nat)
    requires s.Valid() && s.Proper() && n >= |Pending(s)|
    ensures multiset(Drain(s, n)) == multiset(Pending(s))
    decreases n
  {
    NextIsFirst(s);
    if Best(s, DISP_MGR_MAX_CNT) >= 0 {
      var f, w := Next(s), Pending(s);
      TakenRemoves(s);
      assert |w| == |w - {f}| + 1;
      DrainComplete(Taken(s), n - 1);
      Prepended(f, Drain(Taken(s), n - 1), w);
    }
  }

  // The manager.

  class Manager {
    const poc: array<int32>
    const ptr: array<nat>

    ghost predicate Valid()
      reads this
    {
      poc.Length == ptr.Length == DISP_MGR_MAX_CNT && (poc as object) != (ptr as object)
    }

    ghost function Content(): (s: Slots)
      requires Valid()
      reads this, poc, ptr
      ensures s.Valid()
    {
      Slots(poc[..], ptr[..])
    }

    constructor ()
      ensures Valid() && fresh(poc) && fresh(ptr) && Content() == Empty()
    {
      poc, ptr := new int32[DISP_MGR_MAX_CNT], new nat[DISP_MGR_MAX_CNT];
      new;
      for id := 0 to DISP_MGR_MAX_CNT
        invariant forall k | 0 <= k < id :: poc[k] == DEFAULT_POC && ptr[k] == 0
        modifies poc, ptr
      {
        poc[id], ptr[id] := DEFAULT_POC, 0;
      }
    }

    method Add(f: Frame) returns (r: int)
      requires Valid()
      modifies poc, ptr
      ensures r == (if CanAdd(old(Content()), f.id) then 0 else -1) && Content() == Added(old(Content()), f)
    {
      if f.id >= DISP_MGR_MAX_CNT {
        return -1;
      }
      if ptr[f.id] != 0 {
        return -1;
      }
      ptr[f.id] := f.ptr;
      poc[f.id] := f.poc;
      assert ptr[..] == old(ptr[..])[f.id := f.ptr] && poc[..] == old(poc[..])[f.id := f.poc];
      return 0;
    }

    /** The address and id of the next frame, or NULL and -1. */
    method Get() returns (p: nat, id: int)
      requires Valid()
      modifies poc, ptr
      ensures id == Best(old(Content()), DISP_MGR_MAX_CNT) && Content() == Taken(old(Content()))
      ensures p == if id == -1 then 0 else Next(old(Content())).ptr
    {
      var minPoc: int32 := 0x7FFF_FFFF;
      id := -1;
      for k := 0 to DISP_MGR_MAX_CNT
        invariant id == Best(Content(), k) && Content() == old(Content())
        invariant minPoc == if id == -1 then DEFAULT_POC else poc[id]
      {
        if poc[k] != DEFAULT_POC && poc[k] <= minPoc {
          minPoc, id := poc[k], k;
        }
      }
      if id == -1 {
        return 0, -1;
      }
      p := ptr[id];
      ptr[id] := 0;
      poc[id] := DEFAULT_POC;
      assert ptr[..] == old(ptr[..])[id := 0] && poc[..] == old(poc[..])[id := DEFAULT_POC];
    }
  }
}
