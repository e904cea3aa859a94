/** Every step of every thread keeps the invariant: the steps put together. */
module LifetimeRuns {
  import opened Wrappers
  import opened Lifetimes
  import opened LifetimeCounts
  import opened LifetimeInvariant
  import opened LifetimeSteps
  import opened LifetimeKeeps
  import opened LifetimeCalls

  // ---- steps that stay on one handle ----

  // The handles, the record and the frame after a step that replaces one frame.
  predicate Replaces(s: State, t: nat, hs': seq<Handle>, g: Frame, s': State) {
    AtTop(s, t) && s' == SetTop(s, t, hs', [g])
  }

  predicate Runs(s: State, t: nat, choice: Choice, s': State) {
    AtTop(s, t) && RunEnabled(s, Top(s, t), choice) && s' == RunStep(s, t, choice)
  }

  // The record and the frame that the step of a thread leaves at the handle it works on.
  predicate Leaves(s: State, t: nat, s': State, r': Handle, g: Frame)
    requires AtTop(s, t)
  {
    && |s'.threads| == |s.threads| && AtTop(s', t) && g == Top(s', t)
    && Top(s, t).h < |s'.handles| && r' == s'.handles[Top(s, t).h]
  }

  predicate StaysLocal(s: State, t: nat, choice: Choice, s': State, r': Handle, g: Frame) {
    && AtTop(s, t) && Top(s, t).h < |s.handles|
    && s' == SetTop(s, t, s.handles[Top(s, t).h := r'], [g])
    && LocalStep(s.handles[Top(s, t).h], Top(s, t), r', g, choice)
  }

  lemma FreeStartLocal(s: State, t: nat, choice: Choice, s': State, r': Handle, g: Frame)
    requires Runs(s, t, choice, s') && Leaves(s, t, s', r', g)
    requires Top(s, t).pc == FreeStart || (Top(s, t).pc == ReleaseRefs && s.handles[Top(s, t).h].refs == [])
    ensures StaysLocal(s, t, choice, s', r', g)
  {
    assert s.handles[Top(s, t).h := s.handles[Top(s, t).h]] == s.handles;
  }

  lemma CloseLocal(s: State, t: nat, choice: Choice, s': State, r': Handle, g: Frame)
    requires Runs(s, t, choice, s') && Leaves(s, t, s', r', g) && FrameOk(s.handles, Top(s, t))
    requires Top(s, t).pc == CheckOpen || Top(s, t).pc == CloseTest
    ensures StaysLocal(s, t, choice, s', r', g)
  {
    assert s.handles[Top(s, t).h := s.handles[Top(s, t).h]] == s.handles;
  }

  lemma CloseFreeLobLocal(s: State, t: nat, choice: Choice, s': State, r': Handle, g: Frame)
    requires Runs(s, t, choice, s') && Leaves(s, t, s', r', g) && Top(s, t).pc == CloseFree
    requires s.handles[Top(s, t).h].kind == Lob
    ensures StaysLocal(s, t, choice, s', r', g)
  {
    assert s.handles[Top(s, t).h := s.handles[Top(s, t).h]] == s.handles;
  }

  lemma CloseFreeLocal(s: State, t: nat, choice: Choice, s': State, r': Handle, g: Frame)
    requires Runs(s, t, choice, s') && Leaves(s, t, s', r', g) && Top(s, t).pc == CloseFree
    requires s.handles[Top(s, t).h].kind != Lob
    ensures StaysLocal(s, t, choice, s', r', g)
  {
    assert s.handles[Top(s, t).h := s.handles[Top(s, t).h]] == s.handles;
  }

  lemma ResetLocal(s: State, t: nat, choice: Choice, s': State, r': Handle, g: Frame)
    requires Runs(s, t, choice, s') && Leaves(s, t, s', r', g)
    requires Top(s, t).pc.LobClear? || Top(s, t).pc.LobReset? || Top(s, t).pc.ObjectReset? || Top(s, t).pc.ConnReset?
    ensures StaysLocal(s, t, choice, s', r', g)
  {
  }

  lemma ConnLocal(s: State, t: nat, choice: Choice, s': State, r': Handle, g: Frame)
    requires Runs(s, t, choice, s') && Leaves(s, t, s', r', g)
    requires Top(s, t).pc == ConnTest || Top(s, t).pc == EndSession
             || (Top(s, t).pc.WalkCheck? && !s.handles[Top(s, t).pc.entry].checkInt)
    ensures StaysLocal(s, t, choice, s', r', g)
  {
    assert s.handles[Top(s, t).h := s.handles[Top(s, t).h]] == s.handles;
  }

  lemma WalkLocal(s: State, t: nat, choice: Choice, s': State, r': Handle, g: Frame)
    requires Runs(s, t, choice, s') && Leaves(s, t, s', r', g) && Top(s, t).pc.Walk?
    ensures StaysLocal(s, t, choice, s', r', g)
  {
    assert s.handles[Top(s, t).h := s.handles[Top(s, t).h]] == s.handles;
  }

  // Steps of these kinds stay on one handle.
  predicate IsLocal(s: State, f: Frame)
    requires f.h < |s.handles|
  {
    || f.pc.FreeStart? || f.pc.CheckOpen? || f.pc.CloseTest? || f.pc.CloseFree?
    || f.pc.LobClear? || f.pc.LobReset? || f.pc.ObjectReset? || f.pc.ConnReset?
    || f.pc.ConnTest? || f.pc.EndSession? || f.pc.Walk?
    || (f.pc.ReleaseRefs? && s.handles[f.h].refs == [])
    || (f.pc.WalkCheck? && f.pc.entry < |s.handles| && !s.handles[f.pc.entry].checkInt)
  }

  lemma LocalRun(s: State, t: nat, choice: Choice, s': State, r': Handle, g: Frame)
    requires Runs(s, t, choice, s') && Leaves(s, t, s', r', g) && FrameOk(s.handles, Top(s, t))
    requires IsLocal(s, Top(s, t))
    ensures StaysLocal(s, t, choice, s', r', g)
  {
    var pc := Top(s, t).pc;
    if pc.FreeStart? || pc.ReleaseRefs? {
      FreeStartLocal(s, t, choice, s', r', g);
    } else if pc.CheckOpen? || pc.CloseTest? {
      CloseLocal(s, t, choice, s', r', g);
    } else if pc.CloseFree? && s.handles[Top(s, t).h].kind == Lob {
      CloseFreeLobLocal(s, t, choice, s', r', g);
    } else if pc.CloseFree? {
      CloseFreeLocal(s, t, choice, s', r', g);
    } else if pc.Walk? {
      WalkLocal(s, t, choice, s', r', g);
    } else if pc.ConnTest? || pc.EndSession? || pc.WalkCheck? {
      ConnLocal(s, t, choice, s', r', g);
    } else {
      ResetLocal(s, t, choice, s', r', g);
    }
  }

  // The next frame is one that its handle can have.
  lemma LocalFrameOk(hs: seq<Handle>, r: Handle, f: Frame, r': Handle, g: Frame, choice: Choice)
    requires FrameOk(hs, f) && r == hs[f.h] && !f.pc.Walk? && LocalStep(r, f, r', g, choice) && FitsKind(r, f)
    ensures FrameOk(hs, g)
  {
  }

  lemma WalkFrameOk(s: State, t: nat, choice: Choice, s': State, g: Frame)
    requires Runs(s, t, choice, s') && FrameOk(s.handles, Top(s, t)) && Top(s, t).pc.Walk?
    requires AtTop(s', t) && g == Top(s', t)
    requires ListsKnown(s)
    ensures FrameOk(s.handles, g)
    ensures g.pc.WalkCheck? ==> Known(s, g.pc.entry)
  {
    var f := Top(s, t);
    var list, pos := f.pc.list, f.pc.pos;
    var l := ListOf(s.handles[f.h], list);
    if choice.ok && pos < |l| && l[pos].Some? {
      assert EntriesKnown(s, s.handles[f.h].objects) && EntriesKnown(s, s.handles[f.h].lobs);
    }
  }

  lemma LocalFits(s: State, f: Frame)
    requires FrameOk(s.handles, f) && IsLocal(s, f)
    ensures FitsKind(s.handles[f.h], f)
  {
  }

  lemma LocalRunKeeps(s: State, t: nat, choice: Choice, s': State, r': Handle, g: Frame)
    requires Inv(s) && ListsKnown(s) && Runs(s, t, choice, s') && Leaves(s, t, s', r', g) && IsLocal(s, Top(s, t))
    ensures Inv(s') && StaysLocal(s, t, choice, s', r', g)
  {
    var f := Top(s, t);
    TopOk(s, t);
    LocalRun(s, t, choice, s', r', g);
    LocalFits(s, f);
    if f.pc.Walk? {
      WalkFrameOk(s, t, choice, s', g);
    } else {
      LocalFrameOk(s.handles, s.handles[f.h], f, r', g, choice);
    }
    LocalStepKeeps(s, t, r', g, choice);
  }

  // ---- steps that change a handle list ----

  function ListOwner(s: State, t: nat): Id
    requires AtTop(s, t) && ConnectionOf(s.handles, Top(s, t).h).Some?
  {
    ConnectionOf(s.handles, Top(s, t).h).value
  }

  // The list of connection c is replaced by that of the record r, which is otherwise the same.
  lemma UnlistKeeps(s: State, t: nat, choice: Choice, c: Id, r: Handle, hs1: seq<Handle>, g: Frame, s': State)
    requires Inv(s) && AtTop(s, t) && (Top(s, t).pc.LobUnlist? || Top(s, t).pc.ObjectUnlist?) && c < |s.handles|
    requires r == s.handles[c].(objects := r.objects, lobs := r.lobs) && hs1 == s.handles[c := r]
    requires g.h == Top(s, t).h && g.freeing == Top(s, t).freeing
    requires if Top(s, t).pc.LobUnlist? then g.pc == LobClear(Top(s, t).pc.failed) else g == AfterClose(Top(s, t))
    requires Replaces(s, t, hs1, g, s')
    ensures Inv(s')
  {
    var s1 := State(hs1, s.threads);
    ListsIrrelevant(s, c, r);
    UnlistStep(s1, t, g, s');
  }

  lemma UnlistStep(s: State, t: nat, g: Frame, s': State)
    requires Inv(s) && AtTop(s, t) && (Top(s, t).pc.LobUnlist? || Top(s, t).pc.ObjectUnlist?)
    requires g.h == Top(s, t).h && g.freeing == Top(s, t).freeing
    requires if Top(s, t).pc.LobUnlist? then g.pc == LobClear(Top(s, t).pc.failed) else g == AfterClose(Top(s, t))
    requires Replaces(s, t, s.handles, g, s')
    ensures Inv(s')
  {
    TopFrameOk(s, t);
    UnlistFits(s.handles, Top(s, t), g);
    UnlistLocal(s.handles[g.h], Top(s, t), g, Choice(true, true, 0));
    LocalStepKeeps(s, t, s.handles[g.h], g, Choice(true, true, 0));
    assert s.handles[g.h := s.handles[g.h]] == s.handles;
  }

  lemma UnlistLocal(r: Handle, f: Frame, g: Frame, choice: Choice)
    requires (f.pc.LobUnlist? || f.pc.ObjectUnlist?) && g.h == f.h && g.freeing == f.freeing
    requires if f.pc.LobUnlist? then g.pc == LobClear(f.pc.failed) else g == AfterClose(f)
    ensures LocalStep(r, f, r, g, choice)
  {
  }

  lemma UnlistFits(hs: seq<Handle>, f: Frame, g: Frame)
    requires FrameOk(hs, f) && (f.pc.LobUnlist? || f.pc.ObjectUnlist?) && g.h == f.h && g.freeing == f.freeing
    requires if f.pc.LobUnlist? then g.pc == LobClear(f.pc.failed) else g == AfterClose(f)
    ensures FitsKind(hs[f.h], f) && FrameOk(hs, g)
  {
  }

  lemma UnlistRun(s: State, t: nat, choice: Choice, s': State)
    requires Inv(s) && Runs(s, t, choice, s') && (Top(s, t).pc.LobUnlist? || Top(s, t).pc.ObjectUnlist?)
    ensures Inv(s')
  {
    var f := Top(s, t);
    var c := ListOwner(s, t);
    var kind := if f.pc.LobUnlist? then Lob else Object;
    var r := if s.handles[c].closing then s.handles[c] else WithEntry(s.handles[c], kind, s.handles[f.h].slot, None);
    assert s.handles[c := s.handles[c]] == s.handles;
    UnlistKeeps(s, t, choice, c, r, s.handles[c := r], Top(s', t), s');
  }

  lemma EnlistDone(r: Handle, n: Numbers, refsTo: int, f: Frame, g: Frame)
    requires HandleOk(r, Plus(n, FrameNumbers(f)), refsTo) && Coherent(n) && f.pc == Enlist && !f.freeing
    requires g.pc == Finish && !g.freeing
    ensures HandleOk(r, Plus(n, FrameNumbers(g)), refsTo)
  {
  }

  // The records of a new handle and of its connection once the one is in the list of the other.
  predicate Enlisted(hs: seq<Handle>, h: Id, c: Id, slot: nat, hs2: seq<Handle>)
    requires h < |hs| && c < |hs|
  {
    var hs1 := hs[h := hs[h].(slot := slot)];
    hs2 == hs1[c := WithEntry(hs1[c], hs[h].kind, slot, Some(h))]
  }

  lemma ListsChanged(s: State, h: Id, c: Id, slot: nat, hs2: seq<Handle>)
    requires Inv(s) && h < |s.handles| && c < |s.handles| && Enlisted(s.handles, h, c, slot, hs2)
    ensures Inv(State(hs2, s.threads)) && |hs2| == |s.handles|
  {
    var hs1 := s.handles[h := s.handles[h].(slot := slot)];
    ListsIrrelevant(s, h, hs1[h]);
    ListsIrrelevant(State(hs1, s.threads), c, WithEntry(hs1[c], s.handles[h].kind, slot, Some(h)));
  }

  lemma EnlistKeeps(s: State, t: nat, c: Id, slot: nat, hs2: seq<Handle>, g: Frame, s': State)
    requires Inv(s) && AtTop(s, t) && Top(s, t).pc == Enlist && Top(s, t).h < |s.handles| && c < |s.handles|
    requires Enlisted(s.handles, Top(s, t).h, c, slot, hs2)
    requires g == Top(s, t).(pc := Finish) && Replaces(s, t, hs2, g, s')
    ensures Inv(s')
  {
    var f := Top(s, t);
    var s2 := State(hs2, s.threads);
    ListsChanged(s, f.h, c, slot, hs2);
    EnlistFinishes(s2, t, g);
    OneHandle(s2, t, hs2[f.h], g);
    assert hs2[f.h := hs2[f.h]] == hs2;
  }

  lemma EnlistFinishes(s: State, t: nat, g: Frame)
    requires Inv(s) && AtTop(s, t) && Top(s, t).pc == Enlist && g == Top(s, t).(pc := Finish)
    ensures g.h < |s.handles| && FrameOk(s.handles, g)
    ensures HandleOk(s.handles[g.h], Plus(AroundNumbers(s.threads, t, g.h), FrameNumbers(g)), RefsTo(s.handles, g.h))
  {
    TopOk(s, t);
    EnlistDone(s.handles[g.h], AroundNumbers(s.threads, t, g.h), RefsTo(s.handles, g.h), Top(s, t), g);
  }

  lemma EnlistRun(s: State, t: nat, choice: Choice, s': State)
    requires Inv(s) && Runs(s, t, choice, s') && Top(s, t).pc == Enlist
    ensures Inv(s')
  {
    var f := Top(s, t);
    EnlistKeeps(s, t, ListOwner(s, t), choice.slot, s'.handles, f.(pc := Finish), s');
  }

  // ---- steps that pass references on ----

  lemma DropRun(s: State, t: nat, choice: Choice, s': State)
    requires Inv(s) && Runs(s, t, choice, s') && Top(s, t).pc == Finish && !Top(s, t).keep
    ensures Inv(s')
  {
    var f := Top(s, t);
    var r := s.handles[f.h];
    if r.count - 1 == 0 {
      DropLastReference(s, t, r.(count := 0, checkInt := false, freeCalls := r.freeCalls + 1),
                        Frame(f.h, true, false, FreeStart));
    } else {
      var r' := r.(count := r.count - 1);
      DropReference(s, t, r', s.handles[f.h := r'], s');
    }
  }

  lemma FinishRun(s: State, t: nat, choice: Choice, s': State)
    requires Inv(s) && Runs(s, t, choice, s') && Top(s, t).pc == Finish
    ensures Inv(s')
  {
    if Top(s, t).keep {
      ReturnReference(s, t);
    } else {
      DropRun(s, t, choice, s');
    }
  }

  lemma ReferenceRun(s: State, t: nat, choice: Choice, s': State)
    requires Inv(s) && ReadsKnown(s) && Runs(s, t, choice, s') && !IsLocal(s, Top(s, t))
    requires Top(s, t).pc.ReleaseRefs? || Top(s, t).pc.Deallocate? || Top(s, t).pc.WalkCheck?
    ensures Inv(s')
  {
    var f := Top(s, t);
    var r := s.handles[f.h];
    if f.pc.ReleaseRefs? {
      var r' := r.(refs := r.refs[1..]);
      ReleaseNext(s, t, r', Frame(r.refs[0], false, false, Finish), s.handles[f.h := r'], s');
    } else if f.pc.Deallocate? {
      var r' := r.(deallocated := true);
      DeallocateStep(s, t, r', s.handles[f.h := r'], s');
    } else {
      var p := f.pc.entry;
      var r' := s.handles[p].(count := s.handles[p].count + 1);
      TakeReference(s, t, Frame(p, false, false, CloseTest), f.(pc := Walk(f.pc.list, f.pc.pos + 1)), r',
                    s.handles[p := r'], s');
    }
  }

  lemma RunKeepsInv(s: State, t: nat, choice: Choice, s': State)
    requires FullInv(s) && Runs(s, t, choice, s')
    ensures Inv(s')
  {
    var f := Top(s, t);
    if IsLocal(s, f) {
      LocalRunKeeps(s, t, choice, s', s'.handles[f.h], Top(s', t));
    } else if f.pc.Finish? {
      FinishRun(s, t, choice, s');
    } else if f.pc.Enlist? {
      EnlistRun(s, t, choice, s');
    } else if f.pc.LobUnlist? || f.pc.ObjectUnlist? {
      UnlistRun(s, t, choice, s');
    } else {
      ReferenceRun(s, t, choice, s');
    }
  }

  // ---- every step ----

  lemma CallKeepsInv(s: State, l: Label)
    requires Inv(s) && Enabled(s, l) && !l.Run?
    ensures Inv(Next(s, l))
  {
    match l
    case ShareRef(t, h, to) =>
      var r' := s.handles[h].(count := s.handles[h].count + 1);
      OwnedIsListed(s, t, h);
      assert Bump(s.handles, [h]) == s.handles[h := r'] by {
        assert [h][1..] == [];
      }
      ShareKeeps(s, h, to, r', Next(s, l).threads[to], Next(s, l));
    case CallRelease(t, h) =>
      CallBegins(s, t, Frame(h, false, false, Finish), Next(s, l).threads[t]);
    case CallClose(t, h) =>
      CallBegins(s, t, Frame(h, false, true, CheckOpen), Next(s, l).threads[t]);
    case Create(t, kind, parents) =>
      CreateKeeps(s, t, kind, parents, Next(s, l).threads[t].stack[0], Next(s, l));
  }

  lemma NextKeepsInv(s: State, l: Label)
    requires FullInv(s) && Enabled(s, l)
    ensures Inv(Next(s, l))
  {
    if l.Run? {
      RunKeepsInv(s, l.t, l.choice, Next(s, l));
    } else {
      CallKeepsInv(s, l);
    }
  }
}
