/** The lists that connections keep of their open LOBs and objects, step by step. */
module LifetimeLists {
  import opened Wrappers
  import opened Lifetimes
  import opened LifetimeCounts
  import opened LifetimeInvariant
  import opened LifetimeSteps
  import opened LifetimeKeeps
  import opened LifetimeCalls
  import opened LifetimeRuns

  // ---- the frames a step puts on top ----

  // The call is not over with this step, or the caller does not get its reference back.
  predicate StacksFrames(s: State, t: nat) {
    AtTop(s, t) && !(Top(s, t).pc == Finish && Top(s, t).keep)
  }

  // The frames that replace the top of the stack of thread t in s'.
  function NewTop(s: State, t: nat, s': State): (top: seq<Frame>)
    requires AtTop(s, t) && t < |s'.threads| && |s'.threads[t].stack| + 1 >= |s.threads[t].stack|
    ensures |top| == |s'.threads[t].stack| + 1 - |s.threads[t].stack|
  {
    s'.threads[t].stack[..|s'.threads[t].stack| + 1 - |s.threads[t].stack|]
  }

  predicate Stacked(s: State, t: nat, top: seq<Frame>, s': State) {
    AtTop(s, t) && s' == SetTop(s, t, s'.handles, top)
  }

  // No step of a call makes a new entry in a list, and what the walk of a list reads is in the list.
  predicate TopFits(f: Frame, g: Frame) {
    && g.pc != Enlist
    && (g.pc.WalkCheck? ==> f.pc.Walk? && g.h == f.h)
    && (g.pc.LobClear? ==> f.pc.LobUnlist? && g.h == f.h)
    && (IsAt(g, Freed) ==> (f.pc.CloseFree? || f.pc.LobUnlist?) && g.h == f.h)
  }

  lemma StartStacksTop(s: State, t: nat, choice: Choice, s': State)
    requires Runs(s, t, choice, s') && StacksFrames(s, t)
    requires Top(s, t).pc.FreeStart? || Top(s, t).pc.Enlist? || Top(s, t).pc.CheckOpen?
    ensures |s'.threads| == |s.threads| && |s'.threads[t].stack| + 1 >= |s.threads[t].stack|
    ensures Stacked(s, t, NewTop(s, t, s'), s')
    ensures forall k :: 0 <= k < |NewTop(s, t, s')| ==> TopFits(Top(s, t), NewTop(s, t, s')[k])
  {
  }

  lemma FinishStacksTop(s: State, t: nat, choice: Choice, s': State)
    requires Runs(s, t, choice, s') && StacksFrames(s, t)
    requires Top(s, t).pc.Finish? || Top(s, t).pc.Deallocate?
    ensures |s'.threads| == |s.threads| && |s'.threads[t].stack| + 1 >= |s.threads[t].stack|
    ensures Stacked(s, t, NewTop(s, t, s'), s')
    ensures forall k :: 0 <= k < |NewTop(s, t, s')| ==> TopFits(Top(s, t), NewTop(s, t, s')[k])
  {
  }

  lemma ReleaseStacksTop(s: State, t: nat, choice: Choice, s': State)
    requires Runs(s, t, choice, s') && StacksFrames(s, t)
    requires Top(s, t).pc.ReleaseRefs?
    ensures |s'.threads| == |s.threads| && |s'.threads[t].stack| + 1 >= |s.threads[t].stack|
    ensures Stacked(s, t, NewTop(s, t, s'), s')
    ensures forall k :: 0 <= k < |NewTop(s, t, s')| ==> TopFits(Top(s, t), NewTop(s, t, s')[k])
  {
  }

  lemma CloseStacksTop(s: State, t: nat, choice: Choice, s': State)
    requires Runs(s, t, choice, s') && StacksFrames(s, t)
    requires Top(s, t).pc.CloseTest? || Top(s, t).pc.CloseFree? || Top(s, t).pc.LobClear? || Top(s, t).pc.LobReset?
             || Top(s, t).pc.ObjectReset?
    ensures |s'.threads| == |s.threads| && |s'.threads[t].stack| + 1 >= |s.threads[t].stack|
    ensures Stacked(s, t, NewTop(s, t, s'), s')
    ensures forall k :: 0 <= k < |NewTop(s, t, s')| ==> TopFits(Top(s, t), NewTop(s, t, s')[k])
  {
  }

  lemma UnlistStacksTop(s: State, t: nat, choice: Choice, s': State)
    requires Runs(s, t, choice, s') && StacksFrames(s, t)
    requires Top(s, t).pc.LobUnlist? || Top(s, t).pc.ObjectUnlist?
    ensures |s'.threads| == |s.threads| && |s'.threads[t].stack| + 1 >= |s.threads[t].stack|
    ensures Stacked(s, t, NewTop(s, t, s'), s')
    ensures forall k :: 0 <= k < |NewTop(s, t, s')| ==> TopFits(Top(s, t), NewTop(s, t, s')[k])
  {
  }

  lemma WalkStacksTop(s: State, t: nat, choice: Choice, s': State)
    requires Runs(s, t, choice, s') && StacksFrames(s, t)
    requires Top(s, t).pc.ConnTest? || IsBusy(Top(s, t).pc)
    ensures |s'.threads| == |s.threads| && |s'.threads[t].stack| + 1 >= |s.threads[t].stack|
    ensures Stacked(s, t, NewTop(s, t, s'), s')
    ensures forall k :: 0 <= k < |NewTop(s, t, s')| ==> TopFits(Top(s, t), NewTop(s, t, s')[k])
  {
  }

  lemma RunStacks(s: State, t: nat, choice: Choice, s': State)
    requires Runs(s, t, choice, s') && StacksFrames(s, t)
    ensures |s'.threads| == |s.threads| && |s'.threads[t].stack| + 1 >= |s.threads[t].stack|
    ensures Stacked(s, t, NewTop(s, t, s'), s')
    ensures forall k :: 0 <= k < |NewTop(s, t, s')| ==> TopFits(Top(s, t), NewTop(s, t, s')[k])
  {
    var pc := Top(s, t).pc;
    if pc.ConnTest? || IsBusy(pc) {
      WalkStacksTop(s, t, choice, s');
    } else if pc.FreeStart? || pc.Enlist? || pc.CheckOpen? {
      StartStacksTop(s, t, choice, s');
    } else if pc.Finish? || pc.Deallocate? {
      FinishStacksTop(s, t, choice, s');
    } else if pc.ReleaseRefs? {
      ReleaseStacksTop(s, t, choice, s');
    } else if pc.LobUnlist? || pc.ObjectUnlist? {
      UnlistStacksTop(s, t, choice, s');
    } else {
      CloseStacksTop(s, t, choice, s');
    }
  }

  // ---- the lists ----

  predicate ChangesLists(f: Frame) {
    f.pc.Enlist? || f.pc.LobUnlist? || f.pc.ObjectUnlist?
  }

  // What a step of the call f leaves as it is.
  predicate SameLists(f: Frame, r: Handle, r': Handle) {
    && r'.objects == r.objects && r'.lobs == r.lobs && r'.slot == r.slot
    && r'.kind == r.kind && r'.parents == r.parents && (r.everClosed ==> r'.everClosed)
    && r'.freeCalls >= r.freeCalls && (r.deallocated ==> r'.deallocated)
    && (r.refs == [] ==> r'.refs == [])
    && (r.kind != Lob || f.pc.LobClear? || r'.pointer == r.pointer)
    && (r.kind != Object || f.pc.CloseFree? || r'.pointer == r.pointer)
  }

  // The handle that a step of a call changes, apart from lists.
  function Changed(f: Frame): Id {
    if f.pc.WalkCheck? then f.pc.entry else f.h
  }

  predicate ChangesOne(s: State, t: nat, s': State)
    requires AtTop(s, t)
  {
    var x := Changed(Top(s, t));
    && x < |s.handles| == |s'.handles| && s'.handles == s.handles[x := s'.handles[x]]
    && SameLists(Top(s, t), s.handles[x], s'.handles[x])
  }

  lemma LocalSame(r: Handle, f: Frame, r': Handle, g: Frame, choice: Choice)
    requires LocalStep(r, f, r', g, choice) && FitsKind(r, f)
    ensures SameLists(f, r, r')
  {
  }

  lemma LocalChanges(s: State, t: nat, choice: Choice, s': State, r': Handle, g: Frame)
    requires StaysLocal(s, t, choice, s', r', g) && !Top(s, t).pc.WalkCheck?
    requires FitsKind(s.handles[Top(s, t).h], Top(s, t))
    ensures ChangesOne(s, t, s')
  {
    LocalSame(s.handles[Top(s, t).h], Top(s, t), r', g, choice);
  }

  lemma CheckChanges(s: State, t: nat, choice: Choice, s': State)
    requires Runs(s, t, choice, s') && Top(s, t).pc.WalkCheck?
    ensures ChangesOne(s, t, s')
  {
    var x := Changed(Top(s, t));
    assert s.handles[x := s.handles[x]] == s.handles;
  }

  lemma ReferenceChanges(s: State, t: nat, choice: Choice, s': State)
    requires Runs(s, t, choice, s') && (Top(s, t).pc.Finish? || Top(s, t).pc.ReleaseRefs? || Top(s, t).pc.Deallocate?)
    ensures ChangesOne(s, t, s')
  {
    var x := Changed(Top(s, t));
    assert s.handles[x := s.handles[x]] == s.handles;
  }

  lemma OneChanges(s: State, t: nat, choice: Choice, s': State)
    requires Runs(s, t, choice, s') && !ChangesLists(Top(s, t)) && FrameOk(s.handles, Top(s, t))
    ensures ChangesOne(s, t, s')
  {
    var f := Top(s, t);
    if f.pc.WalkCheck? {
      CheckChanges(s, t, choice, s');
    } else if f.pc.Finish? || f.pc.ReleaseRefs? || f.pc.Deallocate? {
      ReferenceChanges(s, t, choice, s');
    } else {
      LocalRun(s, t, choice, s', s'.handles[f.h], Top(s', t));
      LocalFits(s, f);
      LocalChanges(s, t, choice, s', s'.handles[f.h], Top(s', t));
    }
  }

  lemma ListsStay(s: State, t: nat, choice: Choice, s': State)
    requires Runs(s, t, choice, s') && !ChangesLists(Top(s, t)) && FrameOk(s.handles, Top(s, t))
    ensures |s'.handles| == |s.handles|
    ensures forall c :: 0 <= c < |s.handles| ==> SameLists(Top(s, t), s.handles[c], s'.handles[c])
  {
    OneChanges(s, t, choice, s');
  }

  // Kinds and parents never change.
  lemma RunExtends(s: State, t: nat, choice: Choice, s': State)
    requires Runs(s, t, choice, s') && FrameOk(s.handles, Top(s, t))
    ensures Extends(s.handles, s'.handles) && |s'.handles| == |s.handles|
  {
    if !ChangesLists(Top(s, t)) {
      ListsStay(s, t, choice, s');
    } else if Top(s, t).pc.Enlist? {
      EnlistExtends(s, t, choice, s');
    } else {
      UnlistExtends(s, t, choice, s');
    }
  }

  lemma EnlistExtends(s: State, t: nat, choice: Choice, s': State)
    requires Runs(s, t, choice, s') && Top(s, t).pc.Enlist?
    ensures Extends(s.handles, s'.handles) && |s'.handles| == |s.handles|
  {
  }

  lemma UnlistExtends(s: State, t: nat, choice: Choice, s': State)
    requires Runs(s, t, choice, s') && (Top(s, t).pc.LobUnlist? || Top(s, t).pc.ObjectUnlist?)
    ensures Extends(s.handles, s'.handles) && |s'.handles| == |s.handles|
  {
  }

  // ---- the numbers of calls that are about to change a list ----

  lemma PlaceAfter(s: State, t: nat, top: seq<Frame>, s': State, p: Place, h: Id)
    requires Stacked(s, t, top, s')
    ensures Tally(s'.threads, p, h) + At(Top(s, t), p, h) == Tally(s.threads, p, h) + InStack(top, p, h)
  {
    SetTopTally(s, t, s'.handles, top, p, h);
  }

  lemma {:induction false} NotAtPlace(top: seq<Frame>, p: Place, h: Id)
    requires forall k :: 0 <= k < |top| ==> At(top[k], p, h) == 0
    ensures InStack(top, p, h) == 0
  {
    if top != [] {
      NotAtPlace(top[1..], p, h);
    }
  }

  predicate SameThreadsAt(ts: seq<Thread>, ts': seq<Thread>, h: Id) {
    && Tally(ts', Enlisting, h) == Tally(ts, Enlisting, h) && Tally(ts', Unlisted, h) == Tally(ts, Unlisted, h)
    && Tally(ts', Freed, h) == Tally(ts, Freed, h)
  }

  lemma ReturnTallies(s: State, t: nat, th': Thread, h: Id)
    requires AtTop(s, t) && Top(s, t).pc == Finish && th'.stack == s.threads[t].stack[1..]
    ensures SameThreadsAt(s.threads, s.threads[t := th'], h)
  {
    TallyUpdate(s.threads, t, th', Enlisting, h);
    TallyUpdate(s.threads, t, th', Unlisted, h);
    TallyUpdate(s.threads, t, th', Freed, h);
  }

  lemma EnlistingAfter(s: State, t: nat, choice: Choice, s': State, h: Id)
    requires Runs(s, t, choice, s')
    ensures Tally(s'.threads, Enlisting, h) + At(Top(s, t), Enlisting, h) == Tally(s.threads, Enlisting, h)
  {
    if StacksFrames(s, t) {
      RunStacks(s, t, choice, s');
      var top := NewTop(s, t, s');
      PlaceAfter(s, t, top, s', Enlisting, h);
      NotAtPlace(top, Enlisting, h);
    } else {
      ReturnTallies(s, t, s'.threads[t], h);
    }
  }

  lemma UnlistedAfter(s: State, t: nat, choice: Choice, s': State, h: Id)
    requires Runs(s, t, choice, s') && (Top(s, t).pc.LobUnlist? ==> h != Top(s, t).h)
    ensures Tally(s'.threads, Unlisted, h) + At(Top(s, t), Unlisted, h) == Tally(s.threads, Unlisted, h)
  {
    if StacksFrames(s, t) {
      RunStacks(s, t, choice, s');
      var top := NewTop(s, t, s');
      PlaceAfter(s, t, top, s', Unlisted, h);
      NotAtPlace(top, Unlisted, h);
    } else {
      ReturnTallies(s, t, s'.threads[t], h);
    }
  }

  lemma FreedAfter(s: State, t: nat, choice: Choice, s': State, h: Id)
    requires Runs(s, t, choice, s') && !(Top(s, t).h == h && (Top(s, t).pc.CloseFree? || Top(s, t).pc.LobUnlist?))
    ensures Tally(s'.threads, Freed, h) + At(Top(s, t), Freed, h) == Tally(s.threads, Freed, h)
  {
    if StacksFrames(s, t) {
      RunStacks(s, t, choice, s');
      var top := NewTop(s, t, s');
      PlaceAfter(s, t, top, s', Freed, h);
      NotAtPlace(top, Freed, h);
    } else {
      ReturnTallies(s, t, s'.threads[t], h);
    }
  }

  // ---- entries stay known ----

  lemma KnownKept(s: State, s': State, p: Id)
    requires Known(s, p) && Extends(s.handles, s'.handles)
    requires Tally(s'.threads, Enlisting, p) <= Tally(s.threads, Enlisting, p)
    ensures Known(s', p)
  {
  }

  // The entries of a list are old ones, or the handle that was just put into it.
  predicate EntriesFrom(l': seq<Option<Id>>, l: seq<Option<Id>>, f: Frame) {
    forall i :: 0 <= i < |l'| && l'[i].Some? ==>
        (i < |l| && l'[i] == l[i]) || (f.pc.Enlist? && l'[i].value == f.h)
  }

  lemma PutEntries(l: seq<Option<Id>>, i: nat, e: Option<Id>, f: Frame)
    requires e == None || (f.pc.Enlist? && e == Some(f.h))
    ensures EntriesFrom(Put(l, i, e), l, f)
  {
  }

  lemma EntriesAfter(s: State, t: nat, choice: Choice, s': State, c: Id)
    requires Runs(s, t, choice, s') && FrameOk(s.handles, Top(s, t)) && c < |s.handles|
    ensures |s'.handles| == |s.handles|
    ensures EntriesFrom(s'.handles[c].objects, s.handles[c].objects, Top(s, t))
    ensures EntriesFrom(s'.handles[c].lobs, s.handles[c].lobs, Top(s, t))
  {
    var f := Top(s, t);
    if !ChangesLists(f) {
      ListsStay(s, t, choice, s');
    } else {
      var i, e := if f.pc == Enlist then choice.slot else s.handles[f.h].slot, if f.pc == Enlist then Some(f.h) else None;
      PutEntries(s.handles[c].objects, i, e, f);
      PutEntries(s.handles[c].lobs, i, e, f);
    }
  }

  lemma EnlistedKnown(s: State, t: nat, choice: Choice, s': State)
    requires Inv(s) && Runs(s, t, choice, s') && Top(s, t).pc == Enlist
    ensures Known(s', Top(s, t).h)
  {
    var h := Top(s, t).h;
    TopOk(s, t);
    EnlistingAfter(s, t, choice, s', h);
    RunExtends(s, t, choice, s');
    TallyCoherent(s.threads, h);
    assert HandleAt(s, h);
  }

  lemma AllKnownKept(s: State, t: nat, choice: Choice, s': State)
    requires Inv(s) && Runs(s, t, choice, s')
    ensures |s'.handles| == |s.handles|
    ensures forall p :: Known(s, p) ==> Known(s', p)
    ensures Top(s, t).pc == Enlist ==> Known(s', Top(s, t).h)
  {
    TopFrameOk(s, t);
    RunExtends(s, t, choice, s');
    forall p | Known(s, p)
      ensures Known(s', p)
    {
      EnlistingAfter(s, t, choice, s', p);
      KnownKept(s, s', p);
    }
    if Top(s, t).pc == Enlist {
      EnlistedKnown(s, t, choice, s');
    }
  }

  lemma EntriesKnownKept(s: State, f: Frame, s': State, l: seq<Option<Id>>, l': seq<Option<Id>>)
    requires EntriesKnown(s, l) && EntriesFrom(l', l, f)
    requires forall p :: Known(s, p) ==> Known(s', p)
    requires f.pc.Enlist? ==> Known(s', f.h)
    ensures EntriesKnown(s', l')
  {
  }

  lemma ListsKnownKept(s: State, t: nat, choice: Choice, s': State)
    requires FullInv(s) && Runs(s, t, choice, s')
    ensures ListsKnown(s')
  {
    var f := Top(s, t);
    TopFrameOk(s, t);
    AllKnownKept(s, t, choice, s');
    forall c | 0 <= c < |s'.handles|
      ensures EntriesKnown(s', s'.handles[c].objects) && EntriesKnown(s', s'.handles[c].lobs)
    {
      EntriesAfter(s, t, choice, s', c);
      EntriesKnownKept(s, f, s', s.handles[c].objects, s'.handles[c].objects);
      EntriesKnownKept(s, f, s', s.handles[c].lobs, s'.handles[c].lobs);
    }
  }

  // The walk of a list reads entries of the list.
  lemma NewReadKnown(s: State, t: nat, choice: Choice, s': State, k: nat)
    requires FullInv(s) && Runs(s, t, choice, s') && StacksFrames(s, t)
    requires t < |s'.threads| && k < |s'.threads[t].stack| && k + |s.threads[t].stack| <= |s'.threads[t].stack|
    requires s'.threads[t].stack[k].pc.WalkCheck?
    ensures Known(s, s'.threads[t].stack[k].pc.entry)
  {
    RunStacks(s, t, choice, s');
    assert s'.threads[t].stack[k] == NewTop(s, t, s')[k];
    TopFrameOk(s, t);
    WalkStacks(s, t, choice, s');
    WalkFrameOk(s, t, choice, s', Top(s', t));
  }

  lemma WalkStacks(s: State, t: nat, choice: Choice, s': State)
    requires Runs(s, t, choice, s') && Top(s, t).pc.Walk?
    ensures |s'.threads| == |s.threads| && |s'.threads[t].stack| == |s.threads[t].stack|
  {
  }

  // Below the frames a step puts on top, stacks stay as they are.
  lemma RestStays(s: State, t: nat, choice: Choice, s': State, k: nat)
    requires Runs(s, t, choice, s') && t < |s'.threads|
    requires |s'.threads[t].stack| < k + |s.threads[t].stack| && k < |s'.threads[t].stack|
    ensures s'.threads[t].stack[k] in s.threads[t].stack
  {
    var rest := s.threads[t].stack[1..];
    if StacksFrames(s, t) {
      RunStacks(s, t, choice, s');
      var top := NewTop(s, t, s');
      assert s'.threads[t].stack == top + rest;
      assert s'.threads[t].stack[k] == rest[k - |top|] == s.threads[t].stack[k - |top| + 1];
    } else {
      assert s'.threads[t].stack[k] == rest[k] == s.threads[t].stack[k + 1];
    }
  }

  lemma ReadKnownKept(s: State, t: nat, choice: Choice, s': State, k: nat)
    requires FullInv(s) && Runs(s, t, choice, s')
    requires t < |s'.threads| && k < |s'.threads[t].stack| && s'.threads[t].stack[k].pc.WalkCheck?
    ensures Known(s, s'.threads[t].stack[k].pc.entry)
  {
    if |s'.threads[t].stack| < k + |s.threads[t].stack| {
      RestStays(s, t, choice, s', k);
      var i :| 0 <= i < |s.threads[t].stack| && s.threads[t].stack[i] == s'.threads[t].stack[k];
    } else {
      NewReadKnown(s, t, choice, s', k);
    }
  }

  lemma OtherThreads(s: State, t: nat, choice: Choice, s': State)
    requires Runs(s, t, choice, s')
    ensures |s'.threads| == |s.threads| && forall u :: 0 <= u < |s.threads| && u != t ==> s'.threads[u] == s.threads[u]
  {
    if StacksFrames(s, t) {
      RunStacks(s, t, choice, s');
    }
  }

  lemma ReadsKnownKept(s: State, t: nat, choice: Choice, s': State)
    requires FullInv(s) && Runs(s, t, choice, s')
    ensures ReadsKnown(s')
  {
    AllKnownKept(s, t, choice, s');
    OtherThreads(s, t, choice, s');
    forall u, k | 0 <= u < |s'.threads| && 0 <= k < |s'.threads[u].stack| && s'.threads[u].stack[k].pc.WalkCheck?
      ensures Known(s', s'.threads[u].stack[k].pc.entry)
    {
      var p := s'.threads[u].stack[k].pc.entry;
      if u == t {
        ReadKnownKept(s, t, choice, s', k);
      }
      assert Known(s, p);
    }
  }

  // ---- the calls that users make ----

  predicate CallKeepsPlaces(s: State, s': State) {
    && Extends(s.handles, s'.handles)
    && (forall h :: 0 <= h < |s.handles| ==> SameThreadsAt(s.threads, s'.threads, h))
    && (forall c :: 0 <= c < |s.handles| ==>
          s'.handles[c] == s.handles[c].(count := s'.handles[c].count))
  }

  // The stack of one thread changes, and neither place is on it before or after.
  lemma StackChange(ts: seq<Thread>, t: nat, th': Thread, h: Id)
    requires t < |ts| && InStack(th'.stack, Enlisting, h) == InStack(ts[t].stack, Enlisting, h)
    requires InStack(th'.stack, Unlisted, h) == InStack(ts[t].stack, Unlisted, h)
    requires InStack(th'.stack, Freed, h) == InStack(ts[t].stack, Freed, h)
    ensures SameThreadsAt(ts, ts[t := th'], h)
  {
    TallyUpdate(ts, t, th', Enlisting, h);
    TallyUpdate(ts, t, th', Unlisted, h);
    TallyUpdate(ts, t, th', Freed, h);
  }

  lemma CallStacks(s: State, l: Label, s': State, h: Id)
    requires Enabled(s, l) && !l.Run? && s' == Next(s, l) && h < |s.handles|
    ensures SameThreadsAt(s.threads, s'.threads, h)
  {
    var t := if l.ShareRef? then l.to else l.t;
    StackChange(s.threads, t, s'.threads[t], h);
  }

  lemma CallHandles(s: State, l: Label, s': State)
    requires Enabled(s, l) && !l.Run? && s' == Next(s, l)
    ensures |s.handles| <= |s'.handles|
    ensures forall c :: 0 <= c < |s.handles| ==> s'.handles[c] == s.handles[c].(count := s'.handles[c].count)
    ensures forall c :: |s.handles| <= c < |s'.handles| ==>
                l.Create? && c == |s.handles| && s'.handles[c] == New(l.kind, l.parents)
  {
    match l
    case ShareRef(t, h, to) => BumpCounts(s.handles, [h]);
    case Create(t, kind, parents) => BumpCounts(s.handles, parents);
    case _ =>
  }

  lemma CallPlaces(s: State, l: Label, s': State)
    requires Enabled(s, l) && !l.Run? && s' == Next(s, l)
    ensures CallKeepsPlaces(s, s')
  {
    CallHandles(s, l, s');
    forall h | 0 <= h < |s.handles|
      ensures SameThreadsAt(s.threads, s'.threads, h)
    {
      CallStacks(s, l, s', h);
    }
  }

  lemma CallReads(s: State, l: Label, s': State, u: nat, k: nat)
    requires Enabled(s, l) && !l.Run? && s' == Next(s, l)
    requires u < |s'.threads| && k < |s'.threads[u].stack| && s'.threads[u].stack[k].pc.WalkCheck?
    ensures u < |s.threads| && k < |s.threads[u].stack| && s'.threads[u].stack[k] == s.threads[u].stack[k]
  {
  }

  lemma CallKeepsKnown(s: State, l: Label, s': State)
    requires FullInv(s) && Enabled(s, l) && !l.Run? && s' == Next(s, l)
    ensures ListsKnown(s') && ReadsKnown(s')
  {
    CallPlaces(s, l, s');
    CallHandles(s, l, s');
    forall p | Known(s, p)
      ensures Known(s', p)
    {
      assert SameThreadsAt(s.threads, s'.threads, p);
      KnownKept(s, s', p);
    }
    forall c | 0 <= c < |s'.handles|
      ensures EntriesKnown(s', s'.handles[c].objects) && EntriesKnown(s', s'.handles[c].lobs)
    {
      if c < |s.handles| {
        assert EntriesKnown(s, s.handles[c].objects) && EntriesKnown(s, s.handles[c].lobs);
      }
    }
    forall u, k | 0 <= u < |s'.threads| && 0 <= k < |s'.threads[u].stack| && s'.threads[u].stack[k].pc.WalkCheck?
      ensures Known(s', s'.threads[u].stack[k].pc.entry)
    {
      CallReads(s, l, s', u, k);
    }
  }

  // Every step of every thread keeps the invariant.
  lemma NextKeeps(s: State, l: Label)
    requires FullInv(s) && Enabled(s, l)
    ensures FullInv(Next(s, l))
  {
    NextKeepsInv(s, l);
    if l.Run? {
      ListsKnownKept(s, l.t, l.choice, Next(s, l));
      ReadsKnownKept(s, l.t, l.choice, Next(s, l));
    } else {
      CallKeepsKnown(s, l, Next(s, l));
    }
  }
}
