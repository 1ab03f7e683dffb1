/** Promises about reservations alone, under which no buffer is handed out while a list or display
    has it: the bits are set before the picture is listed or given to display, and display gives
    back what it has. Nothing is asked about when a picture is finished. */
module Promises {
  import opened Common
  import opened Runs
  import BufMgr
  import DispMgr
  import DpbMgr

  /** Bits are set on busy buffers only; a picture is listed once its REF bit is set, and if
      display knows it, once its DISP bit is; a picture is queued once its DISP bit is set or
      before it is listed, and not while display has it; display gives back what it has. */
  predicate Promised(s: State, a: Action)
    requires s.Valid()
  {
    match a
    case Acquire => true
    case Mark(id, mask) => BufMgr.Reservation(mask) && BufMgr.Busy(s.Status(id))
    case Insert(id, poc) =>
      && BufMgr.IsRef(s.Status(id)) && !s.Referenced(id)
      && (s.Queued(id) || id in s.shown ==> BufMgr.IsDisp(s.Status(id)))
    case Queue(id, poc) =>
      && poc != DispMgr.DEFAULT_POC && id !in s.shown
      && (BufMgr.IsDisp(s.Status(id)) || (id in s.decoding && BufMgr.Busy(s.Status(id)) && !s.Referenced(id)))
    case Show => true
    case Release(id) => id in s.shown
    case Drop(poc) => s.dpb != []
  }

  predicate PromisedRun(ptr: seq<nat>, actions: seq<Action>)
    requires |ptr| == BufMgr.BUF_MGR_MAX_CNT
  {
    actions == [] ||
    var before := actions[..|actions| - 1];
    PromisedRun(ptr, before) && Promised(Run(ptr, before), actions[|actions| - 1])
  }

  /** The list and display hold only busy buffers, and hold them until they give them back. */
  predicate Held(v: View) {
    && (v.busy ==> v.known)
    && (v.ref || v.disp ==> v.busy)
    && (v.referenced ==> v.ref)
    && (v.queued ==> !v.shown)
    && (v.queued || v.shown ==> v.busy && (v.disp || (v.decoding && !v.referenced)))
  }

  ghost predicate HeldInv(s: State) {
    && s.Valid() && s.disp.Proper() && DistinctIds(s.dpb)
    && (forall id: nat :: BufMgr.Proper(s.Status(id)))
    && (forall id: nat :: Held(ViewOf(s, id)))
  }

  lemma MarkHeld(s: State, b: nat, mask: bv32, id: nat)
    requires HeldInv(s) && Promised(s, Mark(b, mask))
    ensures BufMgr.Proper(Next(s, Mark(b, mask)).Status(id)) && Held(ViewOf(Next(s, Mark(b, mask)), id))
  {
    assert BufMgr.Proper(s.Status(id)) && Held(ViewOf(s, id));
    MarkView(s, b, mask, id);
  }

  lemma StepHeld(s: State, a: Action, id: nat)
    requires HeldInv(s) && Promised(s, a)
    ensures BufMgr.Proper(Next(s, a).Status(id)) && Held(ViewOf(Next(s, a), id))
  {
    assert BufMgr.Proper(s.Status(id)) && Held(ViewOf(s, id));
    match a {
      case Acquire => AcquireView(s, id);
      case Mark(b, mask) => MarkHeld(s, b, mask, id);
      case Insert(b, poc) => InsertView(s, b, poc, id);
      case Queue(b, poc) =>
        assert Held(ViewOf(s, b));
        QueueView(s, b, poc, id);
      case Show => ShowView(s, id);
      case Release(b) => ReleaseView(s, b, id);
      case Drop(poc) => DropView(s, poc, id);
    }
  }

  lemma StepKeepsHeld(s: State, a: Action)
    requires HeldInv(s) && Promised(s, a)
    ensures HeldInv(Next(s, a))
  {
    forall id: nat
      ensures BufMgr.Proper(Next(s, a).Status(id)) && Held(ViewOf(Next(s, a), id))
    {
      StepHeld(s, a, id);
    }
    match a {
      case Queue(b, poc) => assert Held(ViewOf(s, b));
      case _ =>
    }
    StepKeepsLists(s, a);
  }

  lemma {:induction false} RunKeepsHeld(ptr: seq<nat>, actions: seq<Action>)
    requires |ptr| == BufMgr.BUF_MGR_MAX_CNT && PromisedRun(ptr, actions)
    ensures HeldInv(Run(ptr, actions))
  {
    if actions == [] {
      StartSound(ptr);
      forall id: nat
        ensures Held(ViewOf(Start(ptr), id))
      {
        assert Sound(ViewOf(Start(ptr), id));
      }
    } else {
      RunKeepsHeld(ptr, actions[..|actions| - 1]);
      StepKeepsHeld(Run(ptr, actions[..|actions| - 1]), actions[|actions| - 1]);
    }
  }

  /** After every such run, a free buffer, and so the one that would be handed out next, is in
      neither the reference list nor the display queue, and display does not have it; the
      references have distinct buffers, and no status word is 2. */
  lemma FreeIsNowhere(ptr: seq<nat>, actions: seq<Action>, id: nat)
    requires |ptr| == BufMgr.BUF_MGR_MAX_CNT && PromisedRun(ptr, actions)
    ensures var s := Run(ptr, actions);
      && DistinctIds(s.dpb) && BufMgr.Proper(s.Status(id))
      && (s.Status(id) == 0 || id == BufMgr.FirstFree(s.bufs, 0) ==>
            !s.Referenced(id) && !s.Queued(id) && id !in s.shown)
  {
    RunKeepsHeld(ptr, actions);
    assert Held(ViewOf(Run(ptr, actions), id));
  }

  /** Whenever the caller may list a picture, there is room for it. */
  lemma ListingSucceeds(ptr: seq<nat>, actions: seq<Action>, id: nat, poc: int32)
    requires |ptr| == BufMgr.BUF_MGR_MAX_CNT && PromisedRun(ptr, actions)
    requires Promised(Run(ptr, actions), Insert(id, poc))
    ensures var s := Run(ptr, actions); !s.Referenced(id) && |s.dpb| < DpbMgr.MAX_DPB_BUFS
  {
    RunKeepsHeld(ptr, actions);
    var s := Run(ptr, actions);
    assert Held(ViewOf(s, id));
    forall r: nat | s.Referenced(r)
      ensures r < DpbMgr.MAX_DPB_BUFS
    {
      assert Held(ViewOf(s, r));
    }
    RoomBeside(s, id);
  }

  // The promises about listing and queueing are exactly what keeps the invariant.

  lemma InsertExactly(s: State, id: nat, poc: int32)
    requires HeldInv(s)
    ensures HeldInv(Next(s, Insert(id, poc))) <==> Promised(s, Insert(id, poc))
  {
    var t := Next(s, Insert(id, poc));
    if Promised(s, Insert(id, poc)) {
      StepKeepsHeld(s, Insert(id, poc));
    } else {
      assert Held(ViewOf(s, id));
      InsertView(s, id, poc, id);
      if i :| 0 <= i < |s.dpb| && s.dpb[i].id == id {
        assert t.dpb[0].id == id && t.dpb[i + 1].id == id;
        assert !DistinctIds(t.dpb);
      } else {
        assert !Held(ViewOf(t, id));
      }
    }
  }

  /** For a buffer of the table whose display slot is empty; otherwise queueing fails and changes
      nothing. */
  lemma QueueExactly(s: State, id: nat, poc: int32)
    requires HeldInv(s) && ViewOf(s, id).known && DispMgr.CanAdd(s.disp, id)
    ensures HeldInv(Next(s, Queue(id, poc))) <==> Promised(s, Queue(id, poc))
  {
    var t := Next(s, Queue(id, poc));
    if Promised(s, Queue(id, poc)) {
      StepKeepsHeld(s, Queue(id, poc));
    } else if poc == DispMgr.DEFAULT_POC {
      DispMgr.AddedProper(s.disp, DispMgr.Frame(id, poc, s.bufs.ptr[id]));
      assert !t.disp.Proper();
    } else {
      assert Held(ViewOf(s, id));
      QueueView(s, id, poc, id);
      assert !Held(ViewOf(t, id));
    }
  }

  // These runs and those of Runs.

  lemma AllowedIsPromised(s: State, a: Action)
    requires Inv(s) && Allowed(s, a)
    ensures Promised(s, a)
  {
    match a {
      case Mark(b, mask) => assert Sound(ViewOf(s, b));
      case Insert(b, poc) => assert Sound(ViewOf(s, b));
      case Queue(b, poc) => assert Sound(ViewOf(s, b));
      case _ =>
    }
  }

  lemma {:induction false} AllowedRunIsPromised(ptr: seq<nat>, actions: seq<Action>)
    requires |ptr| == BufMgr.BUF_MGR_MAX_CNT && AllowedRun(ptr, actions)
    ensures PromisedRun(ptr, actions)
  {
    if actions != [] {
      var before := actions[..|actions| - 1];
      AllowedRunIsPromised(ptr, before);
      RunKeepsInv(ptr, before);
      AllowedIsPromised(Run(ptr, before), actions[|actions| - 1]);
    }
  }

  lemma PromisedStep(ptr: seq<nat>, before: seq<Action>, a: Action, actions: seq<Action>)
    requires |ptr| == BufMgr.BUF_MGR_MAX_CNT && actions == before + [a]
    ensures PromisedRun(ptr, actions) <==> PromisedRun(ptr, before) && Promised(Run(ptr, before), a)
  {
    assert actions[..|actions| - 1] == before;
  }

  /** A picture that is shown and given back before it is finished keeps these promises, though
      not those of Runs. */
  lemma ShownUnfinished(ptr: seq<nat>, poc: int32)
    requires |ptr| == BufMgr.BUF_MGR_MAX_CNT && ptr[0] != 0 && poc != DispMgr.DEFAULT_POC
    ensures var a := [Acquire, Queue(0, poc), Show, Release(0)]; PromisedRun(ptr, a) && !AllowedRun(ptr, a)
  {
    var a := [Acquire, Queue(0, poc), Show];
    UnfinishedPictureIsReused(ptr, poc);
    AllowedRunIsPromised(ptr, a);
    assert a + [Release(0)] == [Acquire, Queue(0, poc), Show, Release(0)];
    PromisedStep(ptr, a, Release(0), a + [Release(0)]);
    RunStep(ptr, a, Release(0), a + [Release(0)]);
  }
}
