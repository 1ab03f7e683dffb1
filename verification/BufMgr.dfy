/** The buffer manager: a table of buffer addresses with a status word for each. */
module BufMgr {

  const BUF_MGR_MAX_CNT: nat := 64

  const DEC: bv32 := 1
  const REF: bv32 := 2
  const DISP: bv32 := 4

  /** The content of the manager; address 0 is NULL. */
  datatype Table = Table(status: seq<bv32>, ptr: seq<nat>) {
    predicate Valid() { |status| == |ptr| == BUF_MGR_MAX_CNT }

    predicate Free(id: nat)
      requires Valid() && id < BUF_MGR_MAX_CNT
    {
      status[id] == 0 && ptr[id] != 0
    }
  }

  function Empty(): (t: Table)
    ensures t.Valid()
  {
    Table(seq(BUF_MGR_MAX_CNT, _ => 0), seq(BUF_MGR_MAX_CNT, _ => 0))
  }

  /** The lowest free buffer from `from` on, or the size of the table. */
  function FirstFree(t: Table, from: nat): (id: nat)
    requires t.Valid() && from <= BUF_MGR_MAX_CNT
    ensures from <= id <= BUF_MGR_MAX_CNT
    ensures forall k | from <= k < id :: !t.Free(k)
    ensures id < BUF_MGR_MAX_CNT ==> t.Free(id)
    decreases BUF_MGR_MAX_CNT - from
  {
    if from == BUF_MGR_MAX_CNT || t.Free(from) then from else FirstFree(t, from + 1)
  }

  function WithStatus(t: Table, id: nat, status: bv32): (u: Table)
    requires t.Valid() && id < BUF_MGR_MAX_CNT
    ensures u.Valid()
  {
    t.(status := t.status[id := status])
  }

  /** A status word after some of its bits are released: DEC goes with the last of the others. */
  function Cleared(s: bv32, mask: bv32): bv32 {
    if s & !mask == DEC then 0 else s & !mask
  }

  function Acquired(t: Table): (u: Table)
    requires t.Valid()
    ensures u.Valid()
  {
    var id := FirstFree(t, 0);
    if id == BUF_MGR_MAX_CNT then t else WithStatus(t, id, DEC)
  }

  function Released(t: Table, id: nat, mask: bv32): (u: Table)
    requires t.Valid()
    ensures u.Valid()
  {
    if id >= BUF_MGR_MAX_CNT then t else WithStatus(t, id, Cleared(t.status[id], mask))
  }

  predicate Overlap(s: bv32, mask: bv32) { s & mask != 0 }

  function Joined(s: bv32, mask: bv32): bv32 { s | mask }

  predicate CanMark(t: Table, id: nat, mask: bv32)
    requires t.Valid()
  {
    id < BUF_MGR_MAX_CNT && !Overlap(t.status[id], mask)
  }

  function Marked(t: Table, id: nat, mask: bv32): (u: Table)
    requires t.Valid()
    ensures u.Valid()
  {
    if CanMark(t, id, mask) then WithStatus(t, id, Joined(t.status[id], mask)) else t
  }

  /** The status words of buffers whose bits are set only while they are acquired. */
  predicate Proper(s: bv32) { s == 0 || s == 1 || s == 3 || s == 5 || s == 7 }

  predicate Busy(s: bv32) { s != 0 }

  predicate IsRef(s: bv32) { s & REF != 0 }

  predicate IsDisp(s: bv32) { s & DISP != 0 }

  /** A mask that names one reservation or both. */
  predicate Reservation(mask: bv32) { mask == REF || mask == DISP || mask == REF | DISP }

  predicate NamesRef(mask: bv32) { mask == REF || mask == REF | DISP }

  predicate NamesDisp(mask: bv32) { mask == DISP || mask == REF | DISP }

  /** Releasing reservations leaves the others, and frees the buffer if there is no other. */
  lemma ReleaseBits(s: bv32, mask: bv32)
    requires Proper(s) && Reservation(mask)
    ensures s != 2 && (IsRef(s) || IsDisp(s) ==> Busy(s))
    ensures var r := Cleared(s, mask);
      && Proper(r) && IsRef(r) == (IsRef(s) && !NamesRef(mask)) && IsDisp(r) == (IsDisp(s) && !NamesDisp(mask))
      && Busy(r) == (IsRef(r) || IsDisp(r))
  {
  }

  /** Making reservations leaves the others, and keeps the status proper if and only if the
      buffer has been acquired. */
  lemma MarkBits(s: bv32, mask: bv32)
    requires Proper(s) && Reservation(mask)
    ensures var r := Joined(s, mask);
      && (Proper(r) <==> Busy(s))
      && Busy(r) && IsRef(r) == (IsRef(s) || NamesRef(mask)) && IsDisp(r) == (IsDisp(s) || NamesDisp(mask))
  {
  }

  /** Setting fails exactly when some of the bits is set. */
  lemma OverlapBits(s: bv32, mask: bv32)
    requires Proper(s) && Reservation(mask)
    ensures Overlap(s, mask) <==> (IsRef(s) && NamesRef(mask)) || (IsDisp(s) && NamesDisp(mask))
  {
    if s == 0 {} else if s == 1 {} else if s == 3 {} else if s == 5 {} else {}
  }

  // Runs of the table alone.

  /** ihevc_dpb_mgr_release_pics as a function of the table. */
  function PicsReleased(t: Table, count: nat): (u: Table)
    requires t.Valid()
    ensures u.Valid()
  {
    t.(status := seq(BUF_MGR_MAX_CNT, i requires 0 <= i < BUF_MGR_MAX_CNT =>
      if i < count then Cleared(t.status[i], REF) else t.status[i]))
  }

  datatype Op =
    | GetFree
    | SetBits(id: nat, mask: bv32)
    | ClearBits(id: nat, mask: bv32)
    | ClearPics(count: nat)

  function Apply(t: Table, op: Op): (u: Table)
    requires t.Valid()
    ensures u.Valid()
  {
    match op
    case GetFree => Acquired(t)
    case SetBits(id, mask) => Marked(t, id, mask)
    case ClearBits(id, mask) => Released(t, id, mask)
    case ClearPics(count) => PicsReleased(t, count)
  }

  /** Bits are set only on acquired buffers, and only REF and DISP are set or released. */
  predicate Legal(t: Table, op: Op)
    requires t.Valid()
  {
    match op
    case SetBits(id, mask) => Reservation(mask) && (id < BUF_MGR_MAX_CNT ==> Busy(t.status[id]))
    case ClearBits(id, mask) => Reservation(mask)
    case _ => true
  }

  predicate AllProper(t: Table)
    requires t.Valid()
  {
    forall id | 0 <= id < BUF_MGR_MAX_CNT :: Proper(t.status[id])
  }

  lemma ApplyProper(t: Table, op: Op, id: nat)
    requires t.Valid() && AllProper(t) && Legal(t, op) && id < BUF_MGR_MAX_CNT
    ensures Proper(Apply(t, op).status[id])
  {
    var s := t.status[id];
    match op {
      case GetFree =>
      case SetBits(b, mask) => if id == b { MarkBits(s, mask); }
      case ClearBits(b, mask) => ReleaseBits(s, mask);
      case ClearPics(count) => ReleaseBits(s, REF);
    }
  }

  function RunOps(t: Table, ops: seq<Op>): (u: Table)
    requires t.Valid()
    ensures u.Valid()
  {
    if ops == [] then t else Apply(RunOps(t, ops[..|ops| - 1]), ops[|ops| - 1])
  }

  predicate LegalRun(t: Table, ops: seq<Op>)
    requires t.Valid()
  {
    ops == [] || (LegalRun(t, ops[..|ops| - 1]) && Legal(RunOps(t, ops[..|ops| - 1]), ops[|ops| - 1]))
  }

  /** Over every run that sets bits only on acquired buffers and releases only REF and DISP, every
      status stays proper, so none is ever 2. */
  lemma {:induction false} RunStaysProper(t: Table, ops: seq<Op>)
    requires t.Valid() && AllProper(t) && LegalRun(t, ops)
    ensures AllProper(RunOps(t, ops)) && forall id | 0 <= id < BUF_MGR_MAX_CNT :: RunOps(t, ops).status[id] != 2
  {
    if ops != [] {
      var u := RunOps(t, ops[..|ops| - 1]);
      RunStaysProper(t, ops[..|ops| - 1]);
      forall id | 0 <= id < BUF_MGR_MAX_CNT
        ensures Proper(RunOps(t, ops).status[id])
      {
        ApplyProper(u, ops[|ops| - 1], id);
      }
    }
  }

  class Manager {
    const status: array<bv32>
    const ptr: array<nat>

    ghost predicate Valid()
      reads this
    {
      status.Length == ptr.Length == BUF_MGR_MAX_CNT && (status as object) != (ptr as object)
    }

    ghost function Content(): (t: Table)
      requires Valid()
      reads this, status, ptr
      ensures t.Valid()
    {
      Table(status[..], ptr[..])
    }

    constructor ()
      ensures Valid() && fresh(status) && fresh(ptr) && Content() == Empty()
    {
      status, ptr := new bv32[BUF_MGR_MAX_CNT], new nat[BUF_MGR_MAX_CNT];
      new;
      for id := 0 to BUF_MGR_MAX_CNT
        invariant forall k | 0 <= k < id :: status[k] == 0 && ptr[k] == 0
        modifies status, ptr
      {
        status[id], ptr[id] := 0, 0;
      }
    }

    method Add(p: nat, id: nat) returns (r: int)
      requires Valid()
      modifies ptr
      ensures r == if id < BUF_MGR_MAX_CNT && (old(ptr[id]) == 0 || old(ptr[id]) == p) then 0 else -1
      ensures Content() == if r == 0 then old(Content()).(ptr := old(ptr[..])[id := p]) else old(Content())
    {
      if id >= BUF_MGR_MAX_CNT {
        return -1;
      }
      if ptr[id] != 0 && ptr[id] != p {
        return -1;
      }
      ptr[id] := p;
      assert ptr[..] == old(ptr[..])[id := p];
      return 0;
    }

    /** Returns the address of the lowest free buffer and marks it as being decoded, or returns
        NULL when no buffer is free. */
    method GetNextFree() returns (p: nat, id: nat)
      requires Valid()
      modifies status
      ensures id == FirstFree(old(Content()), 0) && Content() == Acquired(old(Content()))
      ensures p != 0 <==> exists k | 0 <= k < BUF_MGR_MAX_CNT :: old(Content()).Free(k)
      ensures p != 0 ==> p == ptr[id]
    {
      p, id := 0, 0;
      while id < BUF_MGR_MAX_CNT
        invariant id <= BUF_MGR_MAX_CNT && Content() == old(Content())
        invariant FirstFree(Content(), id) == FirstFree(Content(), 0)
      {
        if status[id] == 0 && ptr[id] != 0 {
          status[id] := DEC;
          assert status[..] == old(status[..])[id := DEC];
          p := ptr[id];
          return;
        }
        id := id + 1;
      }
    }

    /** 1 exactly when GetNextFree would succeed. */
    method CheckFree() returns (r: int)
      requires Valid()
      ensures r == if FirstFree(Content(), 0) < BUF_MGR_MAX_CNT then 1 else 0
      ensures r == 1 <==> exists k | 0 <= k < BUF_MGR_MAX_CNT :: Content().Free(k)
    {
      for id := 0 to BUF_MGR_MAX_CNT
        invariant FirstFree(Content(), id) == FirstFree(Content(), 0)
      {
        if status[id] == 0 && ptr[id] != 0 {
          return 1;
        }
      }
      return 0;
    }

    method Release(id: nat, mask: bv32) returns (r: int)
      requires Valid()
      modifies status
      ensures r == (if id < BUF_MGR_MAX_CNT then 0 else -1) && Content() == Released(old(Content()), id, mask)
    {
      if id >= BUF_MGR_MAX_CNT {
        return -1;
      }
      status[id] := status[id] & !mask;
      if status[id] == 1 {
        status[id] := 0;
      }
      assert status[..] == old(status[..])[id := Cleared(old(status[id]), mask)];
      return 0;
    }

    method SetStatus(id: nat, mask: bv32) returns (r: int)
      requires Valid()
      modifies status
      ensures r == (if CanMark(old(Content()), id, mask) then 0 else -1)
      ensures Content() == Marked(old(Content()), id, mask)
    {
      if id >= BUF_MGR_MAX_CNT {
        return -1;
      }
      var s := status[id];
      if Overlap(s, mask) {
        return -1;
      }
      status[id] := Joined(s, mask);
      assert status[..] == old(status[..])[id := Joined(s, mask)];
      return 0;
    }

    method GetStatus(id: nat) returns (s: bv32)
      requires Valid() && id < BUF_MGR_MAX_CNT
      ensures s == status[id]
    {
      return status[id];
    }
  }

  /** Releases the reference bit of the first `count` buffers. */
  method ReleasePics(bufs: Manager, count: nat)
    requires bufs.Valid() && count <= BUF_MGR_MAX_CNT
    modifies bufs.status
    ensures bufs.Content() == PicsReleased(old(bufs.Content()), count)
    ensures forall i | 0 <= i < count :: !IsRef(bufs.status[i])
  {
    ghost var t := bufs.Content();
    for i := 0 to count
      invariant bufs.Content() == PicsReleased(t, i)
    {
      var s := bufs.GetStatus(i);
      if s != 0 {
        var _ := bufs.Release(i, REF);
      } else {
        ReleaseBits(0, REF);
      }
      OneMore(t, i);
    }
    forall i | 0 <= i < count
      ensures !IsRef(bufs.status[i])
    {
      assert bufs.Content().status[i] == Cleared(t.status[i], REF);
      ClearedRef(t.status[i]);
    }
  }

  lemma ClearedRef(s: bv32)
    ensures !IsRef(Cleared(s, REF))
  {
  }

  lemma OneMore(t: Table, i: nat)
    requires t.Valid() && i < BUF_MGR_MAX_CNT
    ensures PicsReleased(t, i + 1) == WithStatus(PicsReleased(t, i), i, Cleared(t.status[i], REF))
    ensures t.status[i] == 0 ==> PicsReleased(t, i + 1) == PicsReleased(t, i)
  {
    if t.status[i] == 0 { ReleaseBits(0, REF); }
  }
}
