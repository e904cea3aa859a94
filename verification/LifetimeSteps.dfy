/** Every step of every thread keeps the invariant: the steps that stay on one handle. */
module LifetimeSteps {
  import opened Lifetimes
  import opened LifetimeCounts
  import opened LifetimeInvariant

  // ---- steps that change one record and stay on the same handle ----

  // The new record and the new frame of such a step.
  predicate LocalStep(r: Handle, f: Frame, r': Handle, g: Frame, choice: Choice) {
    && g.h == f.h && g.freeing == f.freeing
    && match f.pc
       case FreeStart =>
         r' == r && g.pc == (match r.kind
                             case Connection => if r.pointer then Walk(0, 0) else ReleaseRefs
                             case Lob => CloseTest
                             case Object => CloseTest
                             case _ => ReleaseRefs)
       case ReleaseRefs => r' == r && g.pc == Deallocate
       case CheckOpen =>
         && r' == r
         && (g.pc == Finish || (r.pointer && (if r.kind == Lob then g.pc == CloseTest else !r.closing && g.pc == ConnTest)))
       case CloseTest => r' == r.(closing := true) && g == if r.closing then AfterClose(f) else f.(pc := CloseFree)
       case CloseFree =>
         if !r.pointer || Dependent(r) then r' == r && g == AfterClose(f)
         else if r.kind == Lob then
           r' == r.(inOci := false, resourceFrees := r.resourceFrees + 1) && g.pc == LobUnlist(!choice.ok)
         else if GivesUp(f, choice) then r' == r && g.pc == ObjectReset
         else
           && r' == r.(inOci := false, pointer := false, resourceFrees := r.resourceFrees + 1)
           && (g.pc == ObjectUnlist || (g.pc == ObjectReset && !f.freeing))
       case LobUnlist(failed) => r' == r && g.pc == LobClear(failed)
       case LobClear(failed) => r' == r.(pointer := false) && g == if failed then f.(pc := LobReset) else AfterClose(f)
       case LobReset => r' == r.(closing := false) && g == AfterClose(f)
       case ObjectUnlist => r' == r && g == AfterClose(f)
       case ObjectReset => r' == r.(closing := false) && g == AfterClose(f)
       case ConnTest =>
         if r.closing then r' == r && g.pc == Finish
         else r' == r.(closing := true, everClosed := true) && g.pc == Walk(0, 0)
       case Walk(_, _) =>
         r' == r && ((g.pc == ConnReset && GivesUp(f, choice)) || g.pc.Walk? || g.pc.WalkCheck? || g.pc.EndSession?)
       case WalkCheck(_, _, _) => r' == r && g.pc.Walk?
       case EndSession =>
         if GivesUp(f, choice) then r' == r && g.pc == ConnReset
         else
           r' == r.(pointer := false, inOci := false, resourceFrees := r.resourceFrees + 1) && g == AfterClose(f)
       case ConnReset => r' == r.(closing := false) && g.pc == Finish
       case _ => false
  }

  predicate FitsKind(r: Handle, f: Frame) {
    var pc := f.pc;
    || ((pc.FreeStart? || (pc.ReleaseRefs? && r.refs == [])) && f.freeing)
    || (pc.CheckOpen? && !f.freeing && (r.kind == Lob || r.kind == Connection))
    || ((pc.CloseTest? || pc.CloseFree?) && (r.kind == Lob || r.kind == Object))
    || ((pc.LobUnlist? || pc.LobClear? || pc.LobReset?) && r.kind == Lob)
    || (pc.ObjectUnlist? && r.kind == Object && !Dependent(r))
    || (pc.ObjectReset? && !f.freeing && r.kind == Object)
    || ((pc.ConnTest? || pc.ConnReset?) && !f.freeing && r.kind == Connection)
    || ((pc.Walk? || pc.EndSession? || pc.WalkCheck?) && r.kind == Connection)
  }

  // The numbers of the handle fit its record again; n counts the frames other than the one moving.
  lemma TestStepOk(r: Handle, n: Numbers, refsTo: int, f: Frame, r': Handle, g: Frame, choice: Choice)
    requires HandleOk(r, Plus(n, FrameNumbers(f)), refsTo) && Coherent(n) && refsTo >= 0
    requires FitsKind(r, f) && LocalStep(r, f, r', g, choice) && f.pc.CloseTest?
    ensures HandleOk(r', Plus(n, FrameNumbers(g)), refsTo)
    ensures g.h == f.h && r'.kind == r.kind && r'.parents == r.parents && r'.refs == r.refs
  {
  }

  lemma FreeStepOk(r: Handle, n: Numbers, refsTo: int, f: Frame, r': Handle, g: Frame, choice: Choice)
    requires HandleOk(r, Plus(n, FrameNumbers(f)), refsTo) && Coherent(n) && refsTo >= 0
    requires FitsKind(r, f) && LocalStep(r, f, r', g, choice) && f.pc.CloseFree?
    ensures HandleOk(r', Plus(n, FrameNumbers(g)), refsTo)
    ensures g.h == f.h && r'.kind == r.kind && r'.parents == r.parents && r'.refs == r.refs
  {
  }

  lemma UnlistStepOk(r: Handle, n: Numbers, refsTo: int, f: Frame, r': Handle, g: Frame, choice: Choice)
    requires HandleOk(r, Plus(n, FrameNumbers(f)), refsTo) && Coherent(n) && refsTo >= 0
    requires FitsKind(r, f) && LocalStep(r, f, r', g, choice) && (f.pc.LobUnlist? || f.pc.ObjectUnlist?)
    ensures HandleOk(r', Plus(n, FrameNumbers(g)), refsTo)
    ensures g.h == f.h && r'.kind == r.kind && r'.parents == r.parents && r'.refs == r.refs
  {
  }

  lemma ClearStepOk(r: Handle, n: Numbers, refsTo: int, f: Frame, r': Handle, g: Frame, choice: Choice)
    requires HandleOk(r, Plus(n, FrameNumbers(f)), refsTo) && Coherent(n) && refsTo >= 0
    requires FitsKind(r, f) && LocalStep(r, f, r', g, choice) && f.pc.LobClear?
    ensures HandleOk(r', Plus(n, FrameNumbers(g)), refsTo)
    ensures g.h == f.h && r'.kind == r.kind && r'.parents == r.parents && r'.refs == r.refs
  {
  }

  lemma ResetStepOk(r: Handle, n: Numbers, refsTo: int, f: Frame, r': Handle, g: Frame, choice: Choice)
    requires HandleOk(r, Plus(n, FrameNumbers(f)), refsTo) && Coherent(n) && refsTo >= 0
    requires FitsKind(r, f) && LocalStep(r, f, r', g, choice) && (f.pc.LobReset? || f.pc.ObjectReset?)
    ensures HandleOk(r', Plus(n, FrameNumbers(g)), refsTo)
    ensures g.h == f.h && r'.kind == r.kind && r'.parents == r.parents && r'.refs == r.refs
  {
  }

  lemma BusyStepOk(r: Handle, n: Numbers, refsTo: int, f: Frame, r': Handle, g: Frame, choice: Choice)
    requires HandleOk(r, Plus(n, FrameNumbers(f)), refsTo) && Coherent(n) && refsTo >= 0
    requires FitsKind(r, f) && LocalStep(r, f, r', g, choice) && (f.pc.Walk? || f.pc.WalkCheck? || f.pc.EndSession?)
    ensures HandleOk(r', Plus(n, FrameNumbers(g)), refsTo)
    ensures g.h == f.h && r'.kind == r.kind && r'.parents == r.parents && r'.refs == r.refs
  {
  }

  lemma ConnStepOk(r: Handle, n: Numbers, refsTo: int, f: Frame, r': Handle, g: Frame, choice: Choice)
    requires HandleOk(r, Plus(n, FrameNumbers(f)), refsTo) && Coherent(n) && refsTo >= 0
    requires FitsKind(r, f) && LocalStep(r, f, r', g, choice) && (f.pc.ConnTest? || f.pc.ConnReset?)
    ensures HandleOk(r', Plus(n, FrameNumbers(g)), refsTo)
    ensures g.h == f.h && r'.kind == r.kind && r'.parents == r.parents && r'.refs == r.refs
  {
  }

  lemma LocalStepOk(r: Handle, n: Numbers, refsTo: int, f: Frame, r': Handle, g: Frame, choice: Choice)
    requires HandleOk(r, Plus(n, FrameNumbers(f)), refsTo) && Coherent(n) && refsTo >= 0
    requires FitsKind(r, f) && LocalStep(r, f, r', g, choice)
    ensures HandleOk(r', Plus(n, FrameNumbers(g)), refsTo)
    ensures g.h == f.h && r'.kind == r.kind && r'.parents == r.parents && r'.refs == r.refs
  {
    if f.pc.CloseTest? {
      TestStepOk(r, n, refsTo, f, r', g, choice);
    } else if f.pc.CloseFree? {
      FreeStepOk(r, n, refsTo, f, r', g, choice);
    } else if f.pc.LobUnlist? || f.pc.ObjectUnlist? {
      UnlistStepOk(r, n, refsTo, f, r', g, choice);
    } else if f.pc.LobClear? {
      ClearStepOk(r, n, refsTo, f, r', g, choice);
    } else if f.pc.LobReset? || f.pc.ObjectReset? {
      ResetStepOk(r, n, refsTo, f, r', g, choice);
    } else if f.pc.Walk? || f.pc.WalkCheck? || f.pc.EndSession? {
      BusyStepOk(r, n, refsTo, f, r', g, choice);
    } else if f.pc.ConnTest? || f.pc.ConnReset? {
      ConnStepOk(r, n, refsTo, f, r', g, choice);
    }
  }

  predicate AtTop(s: State, t: nat) {
    t < |s.threads| && s.threads[t].stack != []
  }

  function Top(s: State, t: nat): Frame
    requires AtTop(s, t)
  {
    s.threads[t].stack[0]
  }

  lemma TopOk(s: State, t: nat)
    requires Inv(s) && AtTop(s, t)
    ensures var f := Top(s, t);
            && FrameOk(s.handles, f) && ShapeOk(s.handles, f.h)
            && NumbersAt(s.threads, f.h) == Plus(AroundNumbers(s.threads, t, f.h), FrameNumbers(f))
            && HandleOk(s.handles[f.h], Plus(AroundNumbers(s.threads, t, f.h), FrameNumbers(f)), RefsTo(s.handles, f.h))
            && Coherent(AroundNumbers(s.threads, t, f.h))
  {
    var f := Top(s, t);
    BeforeIsAroundPlusTop(s, t, s.handles, [], f.h);
    AroundIsCoherent(s.threads, t, f.h);
    assert HandleAt(s, f.h);
  }

  lemma TopFrameOk(s: State, t: nat)
    requires Inv(s) && AtTop(s, t)
    ensures FrameOk(s.handles, Top(s, t))
  {
    TopOk(s, t);
  }

  lemma LocalStepKeeps(s: State, t: nat, r': Handle, g: Frame, choice: Choice)
    requires Inv(s) && AtTop(s, t) && FitsKind(s.handles[Top(s, t).h], Top(s, t)) && FrameOk(s.handles, g)
    requires LocalStep(s.handles[Top(s, t).h], Top(s, t), r', g, choice)
    ensures Inv(SetTop(s, t, s.handles[g.h := r'], [g]))
  {
    TopOk(s, t);
    var f := Top(s, t);
    LocalStepOk(s.handles[f.h], AroundNumbers(s.threads, t, f.h), RefsTo(s.handles, f.h), f, r', g, choice);
    OneHandle(s, t, r', g);
  }

  // ---- lists and slots ----

  // Handle lists and slot numbers play no part in the invariant.
  lemma ListsIrrelevant(s: State, c: Id, r: Handle)
    requires Inv(s) && c < |s.handles|
    requires r == s.handles[c].(slot := r.slot, objects := r.objects, lobs := r.lobs)
    ensures Inv(State(s.handles[c := r], s.threads))
  {
    var hs' := s.handles[c := r];
    var s' := State(hs', s.threads);
    RecordKept(s.handles, c, r, hs');
    forall t | 0 <= t < |s.threads|
      ensures StackOk(hs', s.threads[t].stack)
    {
      StackKept(s.handles, hs', s.threads[t].stack);
    }
    forall h | 0 <= h < |hs'|
      ensures HandleAt(s', h)
    {
      assert HandleAt(s, h);
    }
    forall h | h >= |hs'|
      ensures Fresh(s', h)
    {
      assert Fresh(s, h);
    }
  }
}
