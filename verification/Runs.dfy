/** Runs of the buffer manager, the decoded picture buffer and the display manager together, over
    one table of picture buffers. */
module Runs {
  import BufMgr
  import DispMgr
  import DpbMgr
  import opened Common

  datatype Ref = Ref(id: nat, poc: int32)

  /** The three managers; the buffers that have been acquired and not inserted since; and the
      buffers that display has taken and not given back. */
  datatype State = State(bufs: BufMgr.Table, dpb: seq<Ref>, disp: DispMgr.Slots, decoding: set<nat>, shown: set<nat>) {
    predicate Valid() { bufs.Valid() && disp.Valid() }

    function Status(id: nat): bv32
      requires Valid()
    {
      if id < BufMgr.BUF_MGR_MAX_CNT then bufs.status[id] else 0
    }

    predicate Queued(id: nat)
      requires Valid()
    {
      id < DispMgr.DISP_MGR_MAX_CNT && disp.ptr[id] != 0
    }

    predicate Referenced(id: nat) { exists i | 0 <= i < |dpb| :: dpb[i].id == id }
  }

  datatype Action =
    | Acquire
    | Mark(id: nat, mask: bv32)
    | Insert(id: nat, poc: int32)
    | Queue(id: nat, poc: int32)
    | Show
    | Release(id: nat)
    | Drop(poc: int32)

  function Pocs(dpb: seq<Ref>): (p: seq<int>)
    ensures |p| == |dpb|
  {
    seq(|dpb|, i requires 0 <= i < |dpb| => dpb[i].poc)
  }

  /** What the managers do. */
  function Next(s: State, a: Action): (t: State)
    requires s.Valid()
    ensures t.Valid()
  {
    match a
    case Acquire =>
      var id := BufMgr.FirstFree(s.bufs, 0);
      if id == BufMgr.BUF_MGR_MAX_CNT then s else s.(bufs := BufMgr.Acquired(s.bufs), decoding := s.decoding + {id})
    case Mark(id, mask) => s.(bufs := BufMgr.Marked(s.bufs, id, mask))
    case Insert(id, poc) => s.(dpb := [Ref(id, poc)] + s.dpb, decoding := s.decoding - {id})
    case Queue(id, poc) =>
      if id < BufMgr.BUF_MGR_MAX_CNT then s.(disp := DispMgr.Added(s.disp, DispMgr.Frame(id, poc, s.bufs.ptr[id])))
      else s
    case Show =>
      var b := DispMgr.Best(s.disp, DispMgr.DISP_MGR_MAX_CNT);
      if b == -1 then s else s.(disp := DispMgr.Taken(s.disp), shown := s.shown + {b})
    case Release(id) =>
      s.(bufs := BufMgr.Released(s.bufs, id, BufMgr.DISP), shown := s.shown - {id})
    case Drop(poc) =>
      var k := DpbMgr.IndexOf(Pocs(s.dpb), poc);
      if k == |s.dpb| then s
      else s.(bufs := BufMgr.Released(s.bufs, s.dpb[k].id, BufMgr.REF), dpb := Without(s.dpb, k))
  }

  /** What the caller promises: REF is set on buffers it is decoding into and DISP on any busy
      buffer; a picture becomes a reference once its REF bit is set, and if display knows it, once
      its DISP bit is; a picture is queued while it is decoded or reserved for display, and not
      while display still has it; display gives back only what it has taken, and a picture that is
      still being decoded only once its REF bit is set. */
  predicate Allowed(s: State, a: Action)
    requires s.Valid()
  {
    match a
    case Acquire => true
    case Mark(id, mask) =>
      (mask == BufMgr.REF && id in s.decoding) || (mask == BufMgr.DISP && BufMgr.Busy(s.Status(id)))
    case Insert(id, poc) =>
      && id in s.decoding && BufMgr.IsRef(s.Status(id))
      && (s.Queued(id) || id in s.shown ==> BufMgr.IsDisp(s.Status(id)))
    case Queue(id, poc) =>
      poc != DispMgr.DEFAULT_POC && id !in s.shown && (id in s.decoding || BufMgr.IsDisp(s.Status(id)))
    case Show => true
    case Release(id) => id in s.shown && (id in s.decoding ==> BufMgr.IsRef(s.Status(id)))
    case Drop(poc) => s.dpb != []
  }

  // The invariant, buffer by buffer.

  /** All that concerns one buffer: its reservations, and who holds it. */
  datatype View = View(busy: bool, ref: bool, disp: bool, known: bool,
                       decoding: bool, referenced: bool, queued: bool, shown: bool)

  function ViewOf(s: State, id: nat): View
    requires s.Valid()
  {
    var status := s.Status(id);
    View(BufMgr.Busy(status), BufMgr.IsRef(status), BufMgr.IsDisp(status),
         id < BufMgr.BUF_MGR_MAX_CNT && s.bufs.ptr[id] != 0,
         id in s.decoding, s.Referenced(id), s.Queued(id), id in s.shown)
  }

  /** Whoever holds a buffer has reserved it, and nobody else has. */
  predicate Sound(v: View) {
    && (v.busy ==> v.known)
    && (v.ref || v.disp ==> v.busy)
    && (v.decoding ==> v.busy && !v.referenced)
    && (v.referenced ==> v.ref)
    && (v.ref ==> v.referenced || v.decoding)
    && (v.queued ==> !v.shown)
    && (v.queued || v.shown ==> v.busy && (v.disp || v.decoding))
    && (v.busy ==> v.ref || v.disp || v.decoding)
  }

  predicate DistinctIds(dpb: seq<Ref>) {
    forall i, j | 0 <= i < j < |dpb| :: dpb[i].id != dpb[j].id
  }

  ghost predicate Inv(s: State) {
    && s.Valid() && s.disp.Proper() && DistinctIds(s.dpb)
    && (forall id: nat :: BufMgr.Proper(s.Status(id)))
    && (forall id: nat :: Sound(ViewOf(s, id)))
  }

  lemma InsertReferences(s: State, r: Ref, id: nat)
    ensures s.(dpb := [r] + s.dpb).Referenced(id) <==> s.Referenced(id) || id == r.id
  {
    var t := s.(dpb := [r] + s.dpb);
    assert t.dpb[0] == r;
    if i :| 0 <= i < |s.dpb| && s.dpb[i].id == id {
      assert t.dpb[i + 1].id == id;
    }
  }

  lemma DropDistinct(dpb: seq<Ref>, k: nat)
    requires DistinctIds(dpb) && k < |dpb|
    ensures DistinctIds(Without(dpb, k))
  {
    var u := Without(dpb, k);
    forall i, j | 0 <= i < j < |u|
      ensures u[i].id != u[j].id
    {
      var m, n := if i < k then i else i + 1, if j < k then j else j + 1;
      assert u[i] == dpb[m] && u[j] == dpb[n] && m < n;
    }
  }

  lemma DropReferences(s: State, k: nat, id: nat)
    requires DistinctIds(s.dpb) && k < |s.dpb|
    ensures s.(dpb := Without(s.dpb, k)).Referenced(id) <==> s.Referenced(id) && id != s.dpb[k].id
  {
    var u := Without(s.dpb, k);
    if i :| 0 <= i < |s.dpb| && s.dpb[i].id == id {
      if i != k { assert u[if i < k then i else i - 1].id == id; }
    }
    if i :| 0 <= i < |u| && u[i].id == id {
      assert s.dpb[if i < k then i else i + 1].id == id;
    }
  }

  /** A buffer that is handed out is in no list and no queue, and nobody is decoding into it. */
  lemma FreeIsUnused(s: State, id: nat)
    requires Inv(s) && s.Status(id) == 0
    ensures id !in s.decoding && !s.Referenced(id) && !s.Queued(id) && id !in s.shown
  {
    assert Sound(ViewOf(s, id));
  }

  // One buffer under each action.

  lemma AcquireView(s: State, id: nat)
    requires s.Valid() && BufMgr.Proper(s.Status(id))
    ensures var t, v, f := Next(s, Acquire), ViewOf(s, id), BufMgr.FirstFree(s.bufs, 0);
      && BufMgr.Proper(t.Status(id))
      && (f == id < BufMgr.BUF_MGR_MAX_CNT ==> s.Status(id) == 0 && v.known)
      && ViewOf(t, id) == if f == id < BufMgr.BUF_MGR_MAX_CNT then v.(busy := true, decoding := true) else v
  {
    var t, v, f := Next(s, Acquire), ViewOf(s, id), BufMgr.FirstFree(s.bufs, 0);
    assert t.Referenced(id) == s.Referenced(id) && t.Queued(id) == s.Queued(id);
    if f == id < BufMgr.BUF_MGR_MAX_CNT {
      assert t.Status(id) == 1 && s.Status(id) == 0;
      BufMgr.ReleaseBits(0, BufMgr.REF);
    } else {
      assert t.Status(id) == s.Status(id);
    }
  }

  lemma MarkView(s: State, b: nat, mask: bv32, id: nat)
    requires s.Valid() && BufMgr.Proper(s.Status(id)) && BufMgr.Reservation(mask)
    requires id == b ==> BufMgr.Busy(s.Status(id))
    ensures var t, v := Next(s, Mark(b, mask)), ViewOf(s, id);
      && BufMgr.Proper(t.Status(id))
      && ViewOf(t, id) ==
         if id != b || (v.ref && BufMgr.NamesRef(mask)) || (v.disp && BufMgr.NamesDisp(mask)) then v
         else v.(ref := v.ref || BufMgr.NamesRef(mask), disp := v.disp || BufMgr.NamesDisp(mask))
  {
    var t, v := Next(s, Mark(b, mask)), ViewOf(s, id);
    assert t.Referenced(id) == s.Referenced(id) && t.Queued(id) == s.Queued(id);
    if id == b {
      BufMgr.OverlapBits(s.Status(id), mask);
      BufMgr.MarkBits(s.Status(id), mask);
      assert t.Status(id) ==
        if BufMgr.Overlap(s.Status(id), mask) then s.Status(id) else BufMgr.Joined(s.Status(id), mask);
    } else {
      assert t.Status(id) == s.Status(id);
    }
  }

  lemma InsertView(s: State, b: nat, poc: int32, id: nat)
    requires s.Valid()
    ensures var t, v := Next(s, Insert(b, poc)), ViewOf(s, id);
      && t.Status(id) == s.Status(id)
      && ViewOf(t, id) == if id == b then v.(referenced := true, decoding := false) else v
  {
    InsertReferences(s, Ref(b, poc), id);
    assert Next(s, Insert(b, poc)).Referenced(id) == (s.Referenced(id) || id == b);
  }

  lemma QueueView(s: State, b: nat, poc: int32, id: nat)
    requires s.Valid() && (id == b ==> ViewOf(s, id).known)
    ensures var t, v := Next(s, Queue(b, poc)), ViewOf(s, id);
      && t.Status(id) == s.Status(id)
      && ViewOf(t, id) == if id == b then v.(queued := true) else v
  {
    assert Next(s, Queue(b, poc)).Referenced(id) == s.Referenced(id);
  }

  lemma ShowView(s: State, id: nat)
    requires s.Valid() && s.disp.Proper()
    ensures var t, v, b := Next(s, Show), ViewOf(s, id), DispMgr.Best(s.disp, DispMgr.DISP_MGR_MAX_CNT);
      && t.Status(id) == s.Status(id)
      && (id == b ==> v.queued)
      && ViewOf(t, id) == if id == b then v.(queued := false, shown := true) else v
  {
    var t, b := Next(s, Show), DispMgr.Best(s.disp, DispMgr.DISP_MGR_MAX_CNT);
    assert t.Referenced(id) == s.Referenced(id);
    if id == b { assert s.disp.Waits(b); }
  }

  lemma ReleaseView(s: State, b: nat, id: nat)
    requires s.Valid() && BufMgr.Proper(s.Status(id))
    ensures var t, v := Next(s, Release(b)), ViewOf(s, id);
      && BufMgr.Proper(t.Status(id))
      && ViewOf(t, id) ==
         if id == b then v.(busy := v.ref, disp := false, shown := false) else v
  {
    var t, v := Next(s, Release(b)), ViewOf(s, id);
    assert t.Referenced(id) == s.Referenced(id) && t.Queued(id) == s.Queued(id);
    BufMgr.ReleaseBits(s.Status(id), BufMgr.DISP);
    if id == b {
      assert t.Status(id) == BufMgr.Cleared(s.Status(id), BufMgr.DISP);
    } else {
      assert t.Status(id) == s.Status(id);
    }
  }

  lemma DropView(s: State, poc: int32, id: nat)
    requires s.Valid() && BufMgr.Proper(s.Status(id)) && DistinctIds(s.dpb)
    ensures var t, v, k := Next(s, Drop(poc)), ViewOf(s, id), DpbMgr.IndexOf(Pocs(s.dpb), poc);
      && BufMgr.Proper(t.Status(id))
      && (k < |s.dpb| && id == s.dpb[k].id ==> v.referenced)
      && ViewOf(t, id) ==
         if k < |s.dpb| && id == s.dpb[k].id then v.(busy := v.disp, ref := false, referenced := false) else v
  {
    var t, v, k := Next(s, Drop(poc)), ViewOf(s, id), DpbMgr.IndexOf(Pocs(s.dpb), poc);
    assert t.Queued(id) == s.Queued(id);
    if k < |s.dpb| {
      DropReferences(s, k, id);
      BufMgr.ReleaseBits(s.Status(id), BufMgr.REF);
      if id == s.dpb[k].id {
        assert s.Referenced(id);
        assert t.Status(id) == BufMgr.Cleared(s.Status(id), BufMgr.REF);
      } else {
        assert t.Status(id) == s.Status(id);
      }
    }
  }

  /** Every action that the caller may take keeps every buffer sound. */
  lemma StepSound(s: State, a: Action, id: nat)
    requires Inv(s) && Allowed(s, a)
    ensures BufMgr.Proper(Next(s, a).Status(id)) && Sound(ViewOf(Next(s, a), id))
  {
    assert BufMgr.Proper(s.Status(id)) && Sound(ViewOf(s, id));
    match a {
      case Acquire => AcquireView(s, id);
      case Mark(b, mask) => MarkView(s, b, mask, id);
      case Insert(b, poc) => InsertView(s, b, poc, id);
      case Queue(b, poc) =>
        assert Sound(ViewOf(s, b));
        QueueView(s, b, poc, id);
      case Show => ShowView(s, id);
      case Release(b) => ReleaseView(s, b, id);
      case Drop(poc) => DropView(s, poc, id);
    }
  }

  lemma StepKeepsInv(s: State, a: Action)
    requires Inv(s) && Allowed(s, a)
    ensures Inv(Next(s, a))
  {
    forall id: nat
      ensures BufMgr.Proper(Next(s, a).Status(id)) && Sound(ViewOf(Next(s, a), id))
    {
      StepSound(s, a, id);
    }
    if a.Insert? || a.Queue? { assert Sound(ViewOf(s, a.id)); }
    StepKeepsLists(s, a);
  }

  /** The ids in the list stay distinct, and the display slots stay whole. */
  lemma StepKeepsLists(s: State, a: Action)
    requires s.Valid() && s.disp.Proper() && DistinctIds(s.dpb)
    requires a.Insert? ==> !s.Referenced(a.id)
    requires a.Queue? ==> a.poc != DispMgr.DEFAULT_POC && ViewOf(s, a.id).known
    ensures DistinctIds(Next(s, a).dpb) && Next(s, a).disp.Proper()
  {
    match a {
      case Acquire =>
      case Mark(b, mask) =>
      case Insert(b, poc) =>
      case Queue(b, poc) =>
        if DispMgr.CanAdd(s.disp, b) { DispMgr.AddedProper(s.disp, DispMgr.Frame(b, poc, s.bufs.ptr[b])); }
      case Show =>
        DispMgr.NextIsFirst(s.disp);
        if DispMgr.Pending(s.disp) != {} { DispMgr.TakenRemoves(s.disp); }
      case Release(b) =>
      case Drop(poc) =>
        var k := DpbMgr.IndexOf(Pocs(s.dpb), poc);
        if k < |s.dpb| { DropDistinct(s.dpb, k); }
    }
  }

  // Whole runs.

  function Start(ptr: seq<nat>): (s: State)
    requires |ptr| == BufMgr.BUF_MGR_MAX_CNT
    ensures s.Valid()
  {
    State(BufMgr.Empty().(ptr := ptr), [], DispMgr.Empty(), {}, {})
  }

  function Run(ptr: seq<nat>, actions: seq<Action>): (s: State)
    requires |ptr| == BufMgr.BUF_MGR_MAX_CNT
    ensures s.Valid()
  {
    if actions == [] then Start(ptr) else Next(Run(ptr, actions[..|actions| - 1]), actions[|actions| - 1])
  }

  predicate AllowedRun(ptr: seq<nat>, actions: seq<Action>)
    requires |ptr| == BufMgr.BUF_MGR_MAX_CNT
  {
    actions == [] ||
    var before := actions[..|actions| - 1];
    AllowedRun(ptr, before) && Allowed(Run(ptr, before), actions[|actions| - 1])
  }

  lemma StartSound(ptr: seq<nat>)
    requires |ptr| == BufMgr.BUF_MGR_MAX_CNT
    ensures Inv(Start(ptr))
  {
    forall id: nat
      ensures BufMgr.Proper(Start(ptr).Status(id)) && Sound(ViewOf(Start(ptr), id))
    {
      BufMgr.ReleaseBits(0, BufMgr.REF);
    }
  }

  lemma {:induction false} RunKeepsInv(ptr: seq<nat>, actions: seq<Action>)
    requires |ptr| == BufMgr.BUF_MGR_MAX_CNT && AllowedRun(ptr, actions)
    ensures Inv(Run(ptr, actions))
  {
    if actions == [] {
      StartSound(ptr);
    } else {
      RunKeepsInv(ptr, actions[..|actions| - 1]);
      StepKeepsInv(Run(ptr, actions[..|actions| - 1]), actions[|actions| - 1]);
    }
  }

  /** The action hands out the buffer. */
  predicate Takes(s: State, a: Action, id: nat)
    requires s.Valid()
  {
    a.Acquire? && BufMgr.FirstFree(s.bufs, 0) == id < BufMgr.BUF_MGR_MAX_CNT
  }

  predicate Inserts(a: Action, id: nat) { a.Insert? && a.id == id }

  /** The i-th action acquired the buffer, and no later one has inserted it. */
  predicate TakenAt(ptr: seq<nat>, actions: seq<Action>, i: nat, id: nat)
    requires |ptr| == BufMgr.BUF_MGR_MAX_CNT && i < |actions|
  {
    Takes(Run(ptr, actions[..i]), actions[i], id) && forall j | i < j < |actions| :: !Inserts(actions[j], id)
  }

  /** The picture in this buffer has been begun and not been finished. */
  predicate Unfinished(ptr: seq<nat>, actions: seq<Action>, id: nat)
    requires |ptr| == BufMgr.BUF_MGR_MAX_CNT
  {
    exists i | 0 <= i < |actions| :: TakenAt(ptr, actions, i, id)
  }

  lemma TakenBefore(ptr: seq<nat>, actions: seq<Action>, i: nat, id: nat)
    requires |ptr| == BufMgr.BUF_MGR_MAX_CNT && i + 1 < |actions|
    ensures TakenAt(ptr, actions, i, id) <==>
      TakenAt(ptr, actions[..|actions| - 1], i, id) && !Inserts(actions[|actions| - 1], id)
  {
    assert actions[..|actions| - 1][..i] == actions[..i];
  }

  lemma TakenLast(ptr: seq<nat>, actions: seq<Action>, id: nat)
    requires |ptr| == BufMgr.BUF_MGR_MAX_CNT && actions != []
    ensures var n := |actions| - 1; TakenAt(ptr, actions, n, id) <==> Takes(Run(ptr, actions[..n]), actions[n], id)
  {
  }

  lemma UnfinishedStays(ptr: seq<nat>, actions: seq<Action>, id: nat)
    requires |ptr| == BufMgr.BUF_MGR_MAX_CNT && actions != []
    requires Unfinished(ptr, actions[..|actions| - 1], id) && !Inserts(actions[|actions| - 1], id)
    ensures Unfinished(ptr, actions, id)
  {
    var before := actions[..|actions| - 1];
    var i :| 0 <= i < |before| && TakenAt(ptr, before, i, id);
    TakenBefore(ptr, actions, i, id);
  }

  lemma TakenWas(ptr: seq<nat>, actions: seq<Action>, i: nat, id: nat)
    requires |ptr| == BufMgr.BUF_MGR_MAX_CNT && i + 1 < |actions| && TakenAt(ptr, actions, i, id)
    ensures Unfinished(ptr, actions[..|actions| - 1], id) && !Inserts(actions[|actions| - 1], id)
  {
    TakenBefore(ptr, actions, i, id);
  }

  lemma UnfinishedWas(ptr: seq<nat>, actions: seq<Action>, id: nat)
    requires |ptr| == BufMgr.BUF_MGR_MAX_CNT
    requires Unfinished(ptr, actions, id) && !TakenAt(ptr, actions, |actions| - 1, id)
    ensures Unfinished(ptr, actions[..|actions| - 1], id) && !Inserts(actions[|actions| - 1], id)
  {
    var i :| 0 <= i < |actions| && TakenAt(ptr, actions, i, id);
    TakenWas(ptr, actions, i, id);
  }

  lemma DecodingStep(s: State, a: Action, id: nat)
    requires s.Valid()
    ensures id in Next(s, a).decoding <==> Takes(s, a, id) || (id in s.decoding && !Inserts(a, id))
  {
  }

  /** Whatever the caller does, the set of buffers being decoded into is that of the history. */
  lemma {:induction false} DecodingIsUnfinished(ptr: seq<nat>, actions: seq<Action>, id: nat)
    requires |ptr| == BufMgr.BUF_MGR_MAX_CNT
    ensures id in Run(ptr, actions).decoding <==> Unfinished(ptr, actions, id)
  {
    if actions != [] {
      var before, last := actions[..|actions| - 1], actions[|actions| - 1];
      DecodingIsUnfinished(ptr, before, id);
      DecodingStep(Run(ptr, before), last, id);
      TakenLast(ptr, actions, id);
      if Unfinished(ptr, actions, id) && !Takes(Run(ptr, before), last, id) { UnfinishedWas(ptr, actions, id); }
      if Unfinished(ptr, before, id) && !Inserts(last, id) { UnfinishedStays(ptr, actions, id); }
    }
  }

  /** After every run, the buffer that would be handed out next is in neither the reference list
      nor the display queue, display does not hold it, and it holds no unfinished picture. */
  lemma NextFreeIsUnused(ptr: seq<nat>, actions: seq<Action>)
    requires |ptr| == BufMgr.BUF_MGR_MAX_CNT && AllowedRun(ptr, actions)
    ensures var s := Run(ptr, actions); var id := BufMgr.FirstFree(s.bufs, 0);
      id < BufMgr.BUF_MGR_MAX_CNT ==>
        !Unfinished(ptr, actions, id) && !s.Referenced(id) && !s.Queued(id) && id !in s.shown
  {
    RunKeepsInv(ptr, actions);
    var s := Run(ptr, actions);
    var id := BufMgr.FirstFree(s.bufs, 0);
    DecodingIsUnfinished(ptr, actions, id);
    if id < BufMgr.BUF_MGR_MAX_CNT { FreeIsUnused(s, id); }
  }

  // Exactly which buffers are free.

  /** Reserved for display, although display neither waits for it nor has it. */
  predicate Unclaimed(s: State, id: nat)
    requires s.Valid()
  {
    BufMgr.IsDisp(s.Status(id)) && !s.Queued(id) && id !in s.shown
  }

  /** The caller owes display a picture: it has marked the buffer with DISP when display neither
      waited for it nor had it, and has not queued it since. */
  predicate Owed(ptr: seq<nat>, actions: seq<Action>, id: nat)
    requires |ptr| == BufMgr.BUF_MGR_MAX_CNT
  {
    actions != [] &&
    var before := actions[..|actions| - 1];
    match actions[|actions| - 1]
    case Mark(b, mask) => Owed(ptr, before, id) || (b == id && OpensDebt(Run(ptr, before), b, mask))
    case Queue(b, poc) => Owed(ptr, before, id) && b != id
    case _ => Owed(ptr, before, id)
  }

  predicate OpensDebt(s: State, id: nat, mask: bv32)
    requires s.Valid()
  {
    mask == BufMgr.DISP && !s.Queued(id) && id !in s.shown
  }

  lemma StepClaims(s: State, a: Action, id: nat)
    requires Inv(s) && Allowed(s, a)
    ensures Unclaimed(Next(s, a), id) <==>
      match a
      case Mark(b, mask) => Unclaimed(s, id) || (b == id && OpensDebt(s, b, mask))
      case Queue(b, poc) => Unclaimed(s, id) && b != id
      case _ => Unclaimed(s, id)
  {
    assert BufMgr.Proper(s.Status(id)) && Sound(ViewOf(s, id));
    match a {
      case Acquire => AcquireView(s, id);
      case Mark(b, mask) => MarkView(s, b, mask, id);
      case Insert(b, poc) => InsertView(s, b, poc, id);
      case Queue(b, poc) =>
        assert Sound(ViewOf(s, b));
        QueueView(s, b, poc, id);
      case Show => ShowView(s, id);
      case Release(b) => ReleaseView(s, b, id);
      case Drop(poc) => DropView(s, poc, id);
    }
    var v, w := ViewOf(s, id), ViewOf(Next(s, a), id);
    assert Unclaimed(s, id) == (v.disp && !v.queued && !v.shown);
    assert Unclaimed(Next(s, a), id) == (w.disp && !w.queued && !w.shown);
  }

  lemma {:induction false} UnclaimedIsOwed(ptr: seq<nat>, actions: seq<Action>, id: nat)
    requires |ptr| == BufMgr.BUF_MGR_MAX_CNT && AllowedRun(ptr, actions)
    ensures Unclaimed(Run(ptr, actions), id) <==> Owed(ptr, actions, id)
  {
    if actions == [] {
      BufMgr.ReleaseBits(0, BufMgr.REF);
    } else {
      var before := actions[..|actions| - 1];
      RunKeepsInv(ptr, before);
      UnclaimedIsOwed(ptr, before, id);
      StepClaims(Run(ptr, before), actions[|actions| - 1], id);
    }
  }

  /** After every run, a buffer is free if and only if it holds no unfinished picture, it is no
      reference, display neither waits for it nor has it, and the caller does not owe it. */
  lemma FreeExactly(ptr: seq<nat>, actions: seq<Action>, id: nat)
    requires |ptr| == BufMgr.BUF_MGR_MAX_CNT && AllowedRun(ptr, actions)
    ensures var s := Run(ptr, actions);
      s.Status(id) == 0 <==>
        && !Unfinished(ptr, actions, id) && !s.Referenced(id)
        && !s.Queued(id) && id !in s.shown && !Owed(ptr, actions, id)
  {
    RunKeepsInv(ptr, actions);
    DecodingIsUnfinished(ptr, actions, id);
    UnclaimedIsOwed(ptr, actions, id);
    assert Sound(ViewOf(Run(ptr, actions), id));
  }

  /** The caller reserves a picture for display only while display waits for it or has it. */
  predicate Prompt(ptr: seq<nat>, actions: seq<Action>)
    requires |ptr| == BufMgr.BUF_MGR_MAX_CNT
  {
    actions == [] ||
    var before, a := actions[..|actions| - 1], actions[|actions| - 1];
    Prompt(ptr, before) && !(a.Mark? && OpensDebt(Run(ptr, before), a.id, a.mask))
  }

  lemma {:induction false} PromptOwesNothing(ptr: seq<nat>, actions: seq<Action>, id: nat)
    requires |ptr| == BufMgr.BUF_MGR_MAX_CNT && Prompt(ptr, actions)
    ensures !Owed(ptr, actions, id)
  {
    if actions != [] { PromptOwesNothing(ptr, actions[..|actions| - 1], id); }
  }

  /** When pictures are queued before they are reserved, a buffer is free if and only if nobody
      holds it: no buffer is lost. */
  lemma NoBufferLost(ptr: seq<nat>, actions: seq<Action>, id: nat)
    requires |ptr| == BufMgr.BUF_MGR_MAX_CNT && AllowedRun(ptr, actions) && Prompt(ptr, actions)
    ensures var s := Run(ptr, actions);
      s.Status(id) == 0 <==>
        !Unfinished(ptr, actions, id) && !s.Referenced(id) && !s.Queued(id) && id !in s.shown
  {
    FreeExactly(ptr, actions, id);
    PromptOwesNothing(ptr, actions, id);
  }

  // Status words.

  /** What an action does to the table of the buffer manager. */
  function Ops(s: State, a: Action): (ops: seq<BufMgr.Op>)
    requires s.Valid()
    ensures |ops| <= 1
  {
    match a
    case Acquire => [BufMgr.GetFree]
    case Mark(id, mask) => [BufMgr.SetBits(id, mask)]
    case Release(id) => [BufMgr.ClearBits(id, BufMgr.DISP)]
    case Drop(poc) =>
      var k := DpbMgr.IndexOf(Pocs(s.dpb), poc);
      if k == |s.dpb| then [] else [BufMgr.ClearBits(s.dpb[k].id, BufMgr.REF)]
    case _ => []
  }

  lemma StepOps(s: State, a: Action)
    requires Inv(s) && Allowed(s, a)
    ensures var ops := Ops(s, a);
      if ops == [] then Next(s, a).bufs == s.bufs
      else BufMgr.Legal(s.bufs, ops[0]) && Next(s, a).bufs == BufMgr.Apply(s.bufs, ops[0])
  {
    if a.Mark? { assert Sound(ViewOf(s, a.id)); }
  }

  lemma OneMoreOp(t: BufMgr.Table, ops: seq<BufMgr.Op>, op: BufMgr.Op)
    requires t.Valid() && BufMgr.LegalRun(t, ops) && BufMgr.Legal(BufMgr.RunOps(t, ops), op)
    ensures BufMgr.LegalRun(t, ops + [op])
    ensures BufMgr.RunOps(t, ops + [op]) == BufMgr.Apply(BufMgr.RunOps(t, ops), op)
  {
    assert (ops + [op])[..|ops + [op]| - 1] == ops;
  }

  /** Every run is a legal run of the buffer manager alone. */
  lemma {:induction false} TableRun(ptr: seq<nat>, actions: seq<Action>) returns (ops: seq<BufMgr.Op>)
    requires |ptr| == BufMgr.BUF_MGR_MAX_CNT && AllowedRun(ptr, actions)
    ensures BufMgr.LegalRun(Start(ptr).bufs, ops) && Run(ptr, actions).bufs == BufMgr.RunOps(Start(ptr).bufs, ops)
  {
    if actions == [] {
      ops := [];
    } else {
      var before, a := actions[..|actions| - 1], actions[|actions| - 1];
      var s := Run(ptr, before);
      ops := TableRun(ptr, before);
      RunKeepsInv(ptr, before);
      StepOps(s, a);
      if Ops(s, a) != [] {
        OneMoreOp(Start(ptr).bufs, ops, Ops(s, a)[0]);
        ops := ops + [Ops(s, a)[0]];
      }
    }
  }

  /** The assertions of the managers against status 2 hold throughout every run. */
  lemma StatusNeverTwo(ptr: seq<nat>, actions: seq<Action>, id: nat)
    requires |ptr| == BufMgr.BUF_MGR_MAX_CNT && AllowedRun(ptr, actions)
    ensures BufMgr.Proper(Run(ptr, actions).Status(id)) && Run(ptr, actions).Status(id) != 2
  {
    var ops := TableRun(ptr, actions);
    BufMgr.RunStaysProper(Start(ptr).bufs, ops);
  }

  function Ids(dpb: seq<Ref>): (ids: seq<nat>)
    ensures |ids| == |dpb|
  {
    seq(|dpb|, i requires 0 <= i < |dpb| => dpb[i].id)
  }

  /** A buffer that is not listed leaves room in the list. */
  lemma RoomBeside(s: State, id: nat)
    requires DistinctIds(s.dpb) && !s.Referenced(id) && id < DpbMgr.MAX_DPB_BUFS
    requires forall r: nat | s.Referenced(r) :: r < DpbMgr.MAX_DPB_BUFS
    ensures |s.dpb| < DpbMgr.MAX_DPB_BUFS
  {
    var ids := Ids(s.dpb);
    forall i | 0 <= i < |ids|
      ensures ids[i] < DpbMgr.MAX_DPB_BUFS && ids[i] != id
    {
      assert s.dpb[i].id == ids[i];
      assert s.Referenced(ids[i]);
    }
    assert id !in ids;
    DpbMgr.Pigeonhole(ids, DpbMgr.MAX_DPB_BUFS);
  }

  /** A buffer that is being decoded into leaves room in the list. */
  lemma RoomForOne(s: State, id: nat)
    requires Inv(s) && id in s.decoding
    ensures !s.Referenced(id) && |s.dpb| < DpbMgr.MAX_DPB_BUFS
  {
    assert Sound(ViewOf(s, id));
    forall r: nat | s.Referenced(r)
      ensures r < DpbMgr.MAX_DPB_BUFS
    {
      assert Sound(ViewOf(s, r));
    }
    RoomBeside(s, id);
  }

  /** After every run, references have distinct buffers; and whenever the caller may insert a
      picture, the picture is not listed and the list is not full: inserting never fails. */
  lemma InsertSucceeds(ptr: seq<nat>, actions: seq<Action>, id: nat)
    requires |ptr| == BufMgr.BUF_MGR_MAX_CNT && AllowedRun(ptr, actions)
    ensures var s := Run(ptr, actions);
      DistinctIds(s.dpb) && (id in s.decoding ==> !s.Referenced(id) && |s.dpb| < DpbMgr.MAX_DPB_BUFS)
  {
    RunKeepsInv(ptr, actions);
    var s := Run(ptr, actions);
    if id in s.decoding { RoomForOne(s, id); }
  }

  lemma RunStep(ptr: seq<nat>, before: seq<Action>, a: Action, actions: seq<Action>)
    requires |ptr| == BufMgr.BUF_MGR_MAX_CNT && actions == before + [a]
    ensures Run(ptr, actions) == Next(Run(ptr, before), a)
    ensures AllowedRun(ptr, actions) <==> AllowedRun(ptr, before) && Allowed(Run(ptr, before), a)
  {
    assert actions[..|actions| - 1] == before;
  }

  // Why the promises are needed.

  /** Giving back a picture that is still being decoded frees its buffer, and so breaks the
      invariant, if and only if its REF bit is not set. */
  lemma ReleaseFreesExactly(s: State, id: nat)
    requires Inv(s) && id in s.decoding && id in s.shown
    ensures var t := Next(s, Release(id));
      && (t.Status(id) == 0 <==> !BufMgr.IsRef(s.Status(id)))
      && (Inv(t) <==> BufMgr.IsRef(s.Status(id)))
  {
    var t := Next(s, Release(id));
    assert Sound(ViewOf(s, id));
    ReleaseView(s, id, id);
    if BufMgr.IsRef(s.Status(id)) {
      StepKeepsInv(s, Release(id));
    } else {
      assert !Sound(ViewOf(t, id));
    }
  }

  lemma OnlyOneWaits(s: State)
    requires s.Valid() && s.Queued(0) && s.disp.Waits(0) && forall id: nat | id != 0 :: !s.Queued(id)
    requires s.disp.Proper()
    ensures DispMgr.Best(s.disp, DispMgr.DISP_MGR_MAX_CNT) == 0
  {
    var b := DispMgr.Best(s.disp, DispMgr.DISP_MGR_MAX_CNT);
    DispMgr.BestIsMinimum(s.disp, DispMgr.DISP_MGR_MAX_CNT, 0);
    assert s.Queued(b);
  }

  /** A run that takes the first picture and shows it before it is finished. */
  lemma AcquiredQueuedShown(ptr: seq<nat>, poc: int32) returns (s: State)
    requires |ptr| == BufMgr.BUF_MGR_MAX_CNT && ptr[0] != 0 && poc != DispMgr.DEFAULT_POC
    ensures var a := [Acquire, Queue(0, poc), Show];
      && AllowedRun(ptr, a) && s == Run(ptr, a) && BufMgr.Proper(s.Status(0))
      && ViewOf(s, 0) == View(true, false, false, true, true, false, false, true)
  {
    var queue := Queue(0, poc);
    FirstAcquired(ptr);
    var q := Run(ptr, [Acquire]);
    RunStep(ptr, [Acquire], queue, [Acquire, queue]);
    QueueView(q, 0, poc, 0);
    var m := Run(ptr, [Acquire, queue]);
    RunKeepsInv(ptr, [Acquire, queue]);
    forall id: nat | id != 0
      ensures !m.Queued(id)
    {
      assert !q.Queued(id);
      if id < BufMgr.BUF_MGR_MAX_CNT { QueueView(q, 0, poc, id); }
    }
    OnlyOneWaits(m);
    RunStep(ptr, [Acquire, queue], Show, [Acquire, queue, Show]);
    ShowView(m, 0);
    s := Run(ptr, [Acquire, queue, Show]);
  }

  /** Keeping a picture that is still being decoded is needed: without its REF bit, giving it back
      frees the buffer, which is the next to be handed out although its picture is unfinished; and
      marking the picture after all gives the status 2. */
  lemma UnfinishedPictureIsReused(ptr: seq<nat>, poc: int32)
    requires |ptr| == BufMgr.BUF_MGR_MAX_CNT && ptr[0] != 0 && poc != DispMgr.DEFAULT_POC
    ensures var a := [Acquire, Queue(0, poc), Show];
      var s := Run(ptr, a);
      var t := Next(s, Release(0));
      && AllowedRun(ptr, a) && 0 in s.shown && !Allowed(s, Release(0))
      && Unfinished(ptr, a + [Release(0)], 0) && BufMgr.FirstFree(t.bufs, 0) == 0
      && Next(t, Mark(0, BufMgr.REF)).Status(0) == 2
  {
    var a := [Acquire, Queue(0, poc), Show];
    var s := AcquiredQueuedShown(ptr, poc);
    var t := Next(s, Release(0));
    RunStep(ptr, a, Release(0), a + [Release(0)]);
    DecodingIsUnfinished(ptr, a + [Release(0)], 0);
    ReleaseView(s, 0, 0);
    FreeAgain(t);
    assert t.Status(0) == 0;
    MarkedFree(t);
  }

  lemma MarkedFree(s: State)
    requires s.Valid() && s.Status(0) == 0
    ensures Next(s, Mark(0, BufMgr.REF)).Status(0) == 2
  {
  }

  /** Inserting a picture that display waits for or has, and dropping it again, frees its buffer
      under display if and only if its DISP bit is not set. */
  lemma UnreservedExactly(s: State, id: nat, poc: int32)
    requires Inv(s) && id in s.decoding && BufMgr.IsRef(s.Status(id)) && (s.Queued(id) || id in s.shown)
    ensures var t := Next(Next(s, Insert(id, poc)), Drop(poc));
      && (t.Queued(id) || id in t.shown)
      && (t.Status(id) == 0 <==> !BufMgr.IsDisp(s.Status(id)))
      && (Inv(t) <==> BufMgr.IsDisp(s.Status(id)))
  {
    var u := Next(s, Insert(id, poc));
    var t := Next(u, Drop(poc));
    assert Sound(ViewOf(s, id));
    InsertView(s, id, poc, id);
    InsertedFirst(s, id, poc);
    DropView(u, poc, id);
    if BufMgr.IsDisp(s.Status(id)) {
      StepKeepsInv(s, Insert(id, poc));
      StepKeepsInv(u, Drop(poc));
    } else {
      assert !Sound(ViewOf(t, id));
    }
  }

  /** What releasing the references of the first `count` buffers at once does to the list: a buffer
      is freed under it if and only if it is one of them and display has not reserved it. The
      invariant survives if and only if none of them is listed, and none is being decoded into
      without being reserved for display. */
  lemma ReleasePicsExactly(s: State, count: nat)
    requires Inv(s) && count <= BufMgr.BUF_MGR_MAX_CNT
    ensures var t := s.(bufs := BufMgr.PicsReleased(s.bufs, count));
      && (forall id: nat | s.Referenced(id) ::
            t.Status(id) == 0 <==> id < count && !BufMgr.IsDisp(s.Status(id)))
      && (Inv(t) <==> forall id | 0 <= id < count ::
            !s.Referenced(id) && (id in s.decoding ==> BufMgr.IsDisp(s.Status(id))))
  {
    var t := s.(bufs := BufMgr.PicsReleased(s.bufs, count));
    forall id: nat { PicsReleasedView(s, count, id); }
    if forall id | 0 <= id < count :: !s.Referenced(id) && (id in s.decoding ==> BufMgr.IsDisp(s.Status(id))) {
      forall id: nat
        ensures BufMgr.Proper(t.Status(id)) && Sound(ViewOf(t, id))
      {
        PicsReleasedView(s, count, id);
      }
    } else {
      var id :| 0 <= id < count && (s.Referenced(id) || (id in s.decoding && !BufMgr.IsDisp(s.Status(id))));
      PicsReleasedView(s, count, id);
      assert !Sound(ViewOf(t, id));
    }
  }

  lemma PicsReleasedView(s: State, count: nat, id: nat)
    requires Inv(s) && count <= BufMgr.BUF_MGR_MAX_CNT
    ensures var t, v := s.(bufs := BufMgr.PicsReleased(s.bufs, count)), ViewOf(s, id);
      && BufMgr.Proper(t.Status(id)) && (BufMgr.Busy(t.Status(id)) <==> t.Status(id) != 0)
      && ViewOf(t, id) == (if id < count then v.(busy := v.disp, ref := false) else v)
      && Sound(v)
  {
    var t := s.(bufs := BufMgr.PicsReleased(s.bufs, count));
    assert BufMgr.Proper(s.Status(id)) && Sound(ViewOf(s, id));
    assert t.Referenced(id) == s.Referenced(id) && t.Queued(id) == s.Queued(id);
    BufMgr.ReleaseBits(s.Status(id), BufMgr.REF);
    assert t.Status(id) == if id < count then BufMgr.Cleared(s.Status(id), BufMgr.REF) else s.Status(id);
  }

  /** A picture that has just been inserted is the first with its count. */
  lemma InsertedFirst(s: State, id: nat, poc: int32)
    requires s.Valid() && DistinctIds(s.dpb) && !s.Referenced(id)
    ensures var t := Next(s, Insert(id, poc));
      DistinctIds(t.dpb) && t.dpb[0].id == id && DpbMgr.IndexOf(Pocs(t.dpb), poc) == 0
  {
    var t := Next(s, Insert(id, poc));
    assert t.dpb == [Ref(id, poc)] + s.dpb;
    DpbMgr.IndexOfIs(Pocs(t.dpb), poc, 0);
  }

  /** Reserving for display before inserting is needed: a queued picture that becomes a reference
      without it is free again once it is no reference any more, and is handed out while it still
      waits for display. */
  lemma UnreservedPictureIsReused(ptr: seq<nat>, poc: int32)
    requires |ptr| == BufMgr.BUF_MGR_MAX_CNT && ptr[0] != 0 && poc != DispMgr.DEFAULT_POC
    ensures var a := [Acquire, Queue(0, poc), Mark(0, BufMgr.REF)];
      var s := Run(ptr, a);
      AllowedRun(ptr, a) && !Allowed(s, Insert(0, poc)) &&
      var t := Next(Next(s, Insert(0, poc)), Drop(poc));
      t.Queued(0) && BufMgr.FirstFree(t.bufs, 0) == 0
  {
    var s := AcquiredQueuedMarked(ptr, poc);
    var u := Next(s, Insert(0, poc));
    InsertView(s, 0, poc, 0);
    OnlyReference(s, poc);
    DropView(u, poc, 0);
    FreeAgain(Next(u, Drop(poc)));
  }

  lemma FirstAcquired(ptr: seq<nat>)
    requires |ptr| == BufMgr.BUF_MGR_MAX_CNT && ptr[0] != 0
    ensures var s := Run(ptr, [Acquire]);
      && AllowedRun(ptr, [Acquire]) && s.dpb == [] && BufMgr.Proper(s.Status(0))
      && ViewOf(s, 0) == View(true, false, false, true, true, false, false, false)
  {
    RunStep(ptr, [], Acquire, [Acquire]);
    AcquireView(Start(ptr), 0);
    BufMgr.ReleaseBits(0, BufMgr.REF);
  }

  lemma AcquiredQueuedMarked(ptr: seq<nat>, poc: int32) returns (s: State)
    requires |ptr| == BufMgr.BUF_MGR_MAX_CNT && ptr[0] != 0 && poc != DispMgr.DEFAULT_POC
    ensures var a := [Acquire, Queue(0, poc), Mark(0, BufMgr.REF)];
      && AllowedRun(ptr, a) && s == Run(ptr, a) && s.dpb == [] && BufMgr.Proper(s.Status(0))
      && ViewOf(s, 0) == View(true, true, false, true, true, false, true, false)
  {
    var queue, mark := Queue(0, poc), Mark(0, BufMgr.REF);
    FirstAcquired(ptr);
    var q := Run(ptr, [Acquire]);
    RunStep(ptr, [Acquire], queue, [Acquire, queue]);
    QueueView(q, 0, poc, 0);
    var m := Run(ptr, [Acquire, queue]);
    RunStep(ptr, [Acquire, queue], mark, [Acquire, queue, mark]);
    MarkView(m, 0, BufMgr.REF, 0);
    s := Run(ptr, [Acquire, queue, mark]);
  }

  lemma OnlyReference(s: State, poc: int32)
    requires s.Valid() && s.dpb == []
    ensures var t := Next(s, Insert(0, poc));
      t.dpb == [Ref(0, poc)] && DistinctIds(t.dpb) && DpbMgr.IndexOf(Pocs(t.dpb), poc) == 0
  {
    var t := Next(s, Insert(0, poc));
    assert t.dpb == [Ref(0, poc)] && Pocs(t.dpb) == [poc];
    DpbMgr.IndexOfIs(Pocs(t.dpb), poc, 0);
  }

  lemma FreeAgain(s: State)
    requires s.Valid() && !ViewOf(s, 0).busy && ViewOf(s, 0).known
    ensures BufMgr.FirstFree(s.bufs, 0) == 0
  {
    assert s.bufs.Free(0);
  }

  /** Queueing before reserving is needed: otherwise a run that is allowed ends with a buffer that
      nobody holds and that is never handed out again. */
  lemma ReservedPictureIsLost(ptr: seq<nat>, poc: int32)
    requires |ptr| == BufMgr.BUF_MGR_MAX_CNT && ptr[0] != 0
    ensures var a := [Acquire, Mark(0, BufMgr.REF), Mark(0, BufMgr.DISP), Insert(0, poc), Drop(poc)];
      var s := Run(ptr, a);
      && AllowedRun(ptr, a) && !Prompt(ptr, a) && s.Status(0) != 0
      && !Unfinished(ptr, a, 0) && !s.Referenced(0) && !s.Queued(0) && 0 !in s.shown
  {
    var ref, disp, insert, drop := Mark(0, BufMgr.REF), Mark(0, BufMgr.DISP), Insert(0, poc), Drop(poc);
    FirstAcquired(ptr);
    RunStep(ptr, [Acquire], ref, [Acquire, ref]);
    MarkView(Run(ptr, [Acquire]), 0, BufMgr.REF, 0);
    var s := Run(ptr, [Acquire, ref]);
    RunStep(ptr, [Acquire, ref], disp, [Acquire, ref, disp]);
    MarkView(s, 0, BufMgr.DISP, 0);
    assert OpensDebt(s, 0, BufMgr.DISP);
    ReservedAndDropped(ptr, poc, [Acquire, ref, disp]);
    NotPrompt(ptr, [Acquire, ref], disp, [insert, drop]);
    assert [Acquire, ref, disp] + [insert, drop] == [Acquire, ref, disp, insert, drop];
    assert [Acquire, ref] + [disp] + [insert, drop] == [Acquire, ref, disp, insert, drop];
    DecodingIsUnfinished(ptr, [Acquire, ref, disp, insert, drop], 0);
  }

  lemma ReservedAndDropped(ptr: seq<nat>, poc: int32, before: seq<Action>)
    requires |ptr| == BufMgr.BUF_MGR_MAX_CNT && AllowedRun(ptr, before)
    requires var s := Run(ptr, before);
      && s.dpb == [] && BufMgr.Proper(s.Status(0))
      && ViewOf(s, 0) == View(true, true, true, true, true, false, false, false)
    ensures var a := before + [Insert(0, poc), Drop(poc)];
      AllowedRun(ptr, a) && ViewOf(Run(ptr, a), 0) == View(true, false, true, true, false, false, false, false)
  {
    var insert, drop := Insert(0, poc), Drop(poc);
    var s := Run(ptr, before);
    RunStep(ptr, before, insert, before + [insert]);
    InsertView(s, 0, poc, 0);
    OnlyReference(s, poc);
    RunStep(ptr, before + [insert], drop, before + [insert, drop]);
    DropView(Next(s, insert), poc, 0);
  }

  lemma {:induction false} NotPrompt(ptr: seq<nat>, before: seq<Action>, a: Action, after: seq<Action>)
    requires |ptr| == BufMgr.BUF_MGR_MAX_CNT && a.Mark? && OpensDebt(Run(ptr, before), a.id, a.mask)
    ensures !Prompt(ptr, before + [a] + after)
  {
    var all := before + [a] + after;
    if after == [] {
      assert all[..|all| - 1] == before;
    } else {
      NotPrompt(ptr, before, a, after[..|after| - 1]);
      assert all[..|all| - 1] == before + [a] + after[..|after| - 1];
    }
  }
}
