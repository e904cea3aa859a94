/** What the interleaving of threads cannot bring about: statements about every state of every run. */
module LifetimeSafety {
  import opened Wrappers
  import opened Lifetimes
  import opened LifetimeCounts
  import opened LifetimeInvariant
  import opened LifetimeSteps
  import opened LifetimeKeeps
  import opened LifetimeLists
  import opened LifetimeOwners
  import opened LifetimeOpen

  // ---- runs ----

  // No handle exists yet.
  predicate IsStart(s: State) {
    s.handles == [] && forall t :: 0 <= t < |s.threads| ==> s.threads[t] == Thread(multiset{}, [])
  }

  // A close that checks for errors fails with this step.
  predicate Fails(f: Frame) {
    !f.freeing && (f.pc.LobReset? || f.pc.ObjectReset?)
  }

  // Whether, at step i, a close failed that thread t made since the user's last close.
  predicate Failed(ss: seq<State>, ls: seq<Label>, i: nat, t: nat)
    requires i <= |ls| < |ss|
  {
    i > 0
    && match ls[i - 1]
       case CallClose(u, _) => u != t && Failed(ss, ls, i - 1, t)
       case Run(u, _) => (u == t && AtTop(ss[i - 1], t) && Fails(Top(ss[i - 1], t))) || Failed(ss, ls, i - 1, t)
       case _ => Failed(ss, ls, i - 1, t)
  }

  // The close of a connection by a user does not go on after a close that failed.
  predicate GoesOn(ss: seq<State>, ls: seq<Label>, i: nat)
    requires i < |ls| < |ss|
  {
    match ls[i]
    case Run(t, choice) =>
      AtTop(ss[i], t) && Top(ss[i], t).pc.Walk? && !Top(ss[i], t).freeing && choice.ok ==> !Failed(ss, ls, i, t)
    case _ => true
  }

  predicate IsRun(ss: seq<State>, ls: seq<Label>) {
    && |ss| == |ls| + 1 && IsStart(ss[0])
    && (forall i :: 0 <= i < |ls| ==> Enabled(ss[i], ls[i]) && ss[i + 1] == Next(ss[i], ls[i]))
    && (forall i :: 0 <= i < |ls| ==> GoesOn(ss, ls, i))
  }

  ghost predicate Good(s: State) {
    FullInv(s) && OwnersOk(s) && OpenOk(s)
  }

  lemma {:induction false} NothingYet(ts: seq<Thread>, p: Place, h: Id)
    requires forall t :: 0 <= t < |ts| ==> ts[t] == Thread(multiset{}, [])
    ensures Tally(ts, p, h) == 0
  {
    if ts != [] {
      NothingYet(ts[1..], p, h);
    }
  }

  lemma StartIsGood(s: State)
    requires IsStart(s)
    ensures Good(s)
  {
    forall h: Id
      ensures Fresh(s, h)
    {
      NothingYet(s.threads, Tokens, h);
      NothingYet(s.threads, Jobs, h);
      NothingYet(s.threads, Late, h);
      NothingYet(s.threads, Critical, h);
      NothingYet(s.threads, Freed, h);
      NothingYet(s.threads, Resetting, h);
      NothingYet(s.threads, Enlisting, h);
      NothingYet(s.threads, Busy, h);
    }
  }

  lemma GoodStep(s: State, l: Label, s': State)
    requires Good(s) && Enabled(s, l) && s' == Next(s, l)
    ensures Good(s')
  {
    NextKeeps(s, l);
    NextKeepsOwners(s, l);
    NextKeepsOpen(s, l);
  }

  lemma {:induction false} RunIsGood(ss: seq<State>, ls: seq<Label>, i: nat)
    requires IsRun(ss, ls) && i < |ss|
    ensures Good(ss[i])
  {
    if i == 0 {
      StartIsGood(ss[0]);
    } else {
      RunIsGood(ss, ls, i - 1);
      GoodStep(ss[i - 1], ls[i - 1], ss[i - 1 + 1]);
    }
  }

  // ---- handles are freed once, and stay freed ----

  // The count of a handle is the number of references that threads own or hold and that other
  // handles keep; its free procedure was called if and only if there are none left, and once;
  // its OCI resource is still there or was freed exactly once.
  lemma CountsAreReferences(ss: seq<State>, ls: seq<Label>, i: nat, h: Id)
    requires IsRun(ss, ls) && i < |ss| && h < |ss[i].handles|
    ensures var s, r := ss[i], ss[i].handles[h];
            && r.count == Tally(s.threads, Tokens, h) + RefsTo(s.handles, h)
            && r.freeCalls == (if r.count == 0 then 1 else 0)
            && r.resourceFrees + One(r.inOci) == One(r.kind == Connection || r.kind == Lob || r.kind == Object)
            && Tally(s.threads, Jobs, h) == (if r.count == 0 && !r.deallocated then 1 else 0)
  {
    RunIsGood(ss, ls, i);
    assert HandleAt(ss[i], h);
  }

  predicate NotUndone(r: Handle, r': Handle) {
    r'.freeCalls >= r.freeCalls && (r.deallocated ==> r'.deallocated)
  }

  lemma StepUndoesNothing(s: State, l: Label, h: Id)
    requires Good(s) && Enabled(s, l) && h < |s.handles|
    ensures h < |Next(s, l).handles| && NotUndone(s.handles[h], Next(s, l).handles[h])
  {
    var s' := Next(s, l);
    if !l.Run? {
      CallHandles(s, l, s');
    } else if ChangesLists(Top(s, l.t)) {
      RelistedAll(s, l.t, l.choice, s');
      assert Relisted(s.handles[h], s'.handles[h]);
    } else {
      TopFrameOk(s, l.t);
      ListsStay(s, l.t, l.choice, s');
    }
  }

  lemma {:induction false} NothingIsUndone(ss: seq<State>, ls: seq<Label>, i: nat, j: nat, h: Id)
    requires IsRun(ss, ls) && i <= j < |ss| && h < |ss[i].handles|
    ensures h < |ss[j].handles| && NotUndone(ss[i].handles[h], ss[j].handles[h])
    decreases j - i
  {
    if i < j {
      RunIsGood(ss, ls, i);
      StepUndoesNothing(ss[i], ls[i], h);
      assert ss[i + 1] == Next(ss[i], ls[i]);
      NothingIsUndone(ss, ls, i + 1, j, h);
    }
  }

  // A handle whose count reached zero is never revived.
  lemma NeverRevived(ss: seq<State>, ls: seq<Label>, i: nat, j: nat, h: Id)
    requires IsRun(ss, ls) && i <= j < |ss| && h < |ss[i].handles| && ss[i].handles[h].count == 0
    ensures h < |ss[j].handles| && ss[j].handles[h].count == 0 && ss[j].handles[h].freeCalls == 1
  {
    NothingIsUndone(ss, ls, i, j, h);
    CountsAreReferences(ss, ls, i, h);
    CountsAreReferences(ss, ls, j, h);
  }

  // ---- no use after free ----

  lemma {:induction false} FrameInStack(stack: seq<Frame>, k: nat, p: Place)
    requires k < |stack| && IsAt(stack[k], p)
    ensures InStack(stack, p, stack[k].h) >= 1
  {
    if k > 0 {
      FrameInStack(stack[1..], k - 1, p);
    }
  }

  lemma FrameCounted(ts: seq<Thread>, t: nat, k: nat, p: Place)
    requires t < |ts| && k < |ts[t].stack| && IsAt(ts[t].stack[k], p)
    ensures Tally(ts, p, ts[t].stack[k].h) >= 1
  {
    FrameInStack(ts[t].stack, k, p);
    TallySplit(ts, t, p, ts[t].stack[k].h);
  }

  // Every call in progress, at any depth, works on a handle whose memory is still there: one it holds
  // a reference to, or one that has no references left and whose free procedure it runs.
  lemma CallsAreOnLiveHandles(ss: seq<State>, ls: seq<Label>, i: nat, t: nat, k: nat)
    requires IsRun(ss, ls) && i < |ss| && t < |ss[i].threads| && k < |ss[i].threads[t].stack|
    ensures var f := ss[i].threads[t].stack[k];
            && f.h < |ss[i].handles| && !ss[i].handles[f.h].deallocated
            && (if f.freeing then ss[i].handles[f.h].count == 0 else ss[i].handles[f.h].count >= 1)
  {
    var s := ss[i];
    var f := s.threads[t].stack[k];
    RunIsGood(ss, ls, i);
    FrameInOkStack(s.handles, s.threads[t].stack, k);
    FrameCounted(s.threads, t, k, if f.freeing then Jobs else Tokens);
    CountsAreReferences(ss, ls, i, f.h);
    assert HandleAt(s, f.h);
  }

  // No handle refers to a handle that is being freed or was freed.
  lemma ReferencesAreLive(ss: seq<State>, ls: seq<Label>, i: nat, h: Id, p: Id)
    requires IsRun(ss, ls) && i < |ss| && h < |ss[i].handles| && p in ss[i].handles[h].refs
    ensures p < h && ss[i].handles[p].count >= 1 && !ss[i].handles[p].deallocated
  {
    RunIsGood(ss, ls, i);
    RefersBack(ss[i], h, p);
    RefsToSome(ss[i].handles, h, p);
    CountsAreReferences(ss, ls, i, p);
    assert HandleAt(ss[i], p);
  }

  lemma RefersBack(s: State, h: Id, p: Id)
    requires Inv(s) && h < |s.handles| && p in s.handles[h].refs
    ensures p < h
  {
    assert ShapeOk(s.handles, h);
  }

  // The connection whose list a step changes is live.
  lemma ListOwnersAreLive(ss: seq<State>, ls: seq<Label>, i: nat, h: Id)
    requires IsRun(ss, ls) && i < |ss| && ConnectionOf(ss[i].handles, h).Some?
    ensures var c := ConnectionOf(ss[i].handles, h).value;
            c < h && ss[i].handles[c].count >= 1 && !ss[i].handles[c].deallocated
  {
    var p := ss[i].handles[h].refs[0];
    ReferencesAreLive(ss, ls, i, h, p);
    if ss[i].handles[h].kind == Object {
      ReferencesAreLive(ss, ls, i, p, ss[i].handles[p].refs[0]);
    }
  }

  // ---- one close at a time ----

  lemma {:induction false} TwoInStack(stack: seq<Frame>, j: nat, k: nat, p: Place, h: Id)
    requires j < k < |stack| && stack[j].h == h && stack[k].h == h && IsAt(stack[j], p) && IsAt(stack[k], p)
    ensures InStack(stack, p, h) >= 2
  {
    if j > 0 {
      TwoInStack(stack[1..], j - 1, k - 1, p, h);
    } else {
      FrameInStack(stack[1..], k - 1, p);
    }
  }

  lemma {:induction false} TwoThreads(ts: seq<Thread>, t: nat, u: nat, p: Place, h: Id)
    requires t < u < |ts| && InThread(ts[t], p, h) >= 1 && InThread(ts[u], p, h) >= 1
    ensures Tally(ts, p, h) >= 2
  {
    if t > 0 {
      TwoThreads(ts[1..], t - 1, u - 1, p, h);
    } else {
      TallySplit(ts[1..], u - 1, p, h);
    }
  }

  lemma TwoFramesCounted(ts: seq<Thread>, t: nat, j: nat, u: nat, k: nat, p: Place, h: Id)
    requires t < |ts| && j < |ts[t].stack| && u < |ts| && k < |ts[u].stack| && (t < u || (t == u && j < k))
    requires ts[t].stack[j].h == h && ts[u].stack[k].h == h && IsAt(ts[t].stack[j], p) && IsAt(ts[u].stack[k], p)
    ensures Tally(ts, p, h) >= 2
  {
    if t == u {
      TwoInStack(ts[t].stack, j, k, p, h);
      TallySplit(ts, t, p, h);
    } else {
      FrameInStack(ts[t].stack, j, p);
      FrameInStack(ts[u].stack, k, p);
      TwoThreads(ts, t, u, p, h);
    }
  }

  lemma OneCritical(ss: seq<State>, ls: seq<Label>, i: nat, t: nat, k: nat)
    requires IsRun(ss, ls) && i < |ss| && t < |ss[i].threads| && k < |ss[i].threads[t].stack|
    ensures Tally(ss[i].threads, Critical, ss[i].threads[t].stack[k].h) <= 1
  {
    RunIsGood(ss, ls, i);
    FrameInOkStack(ss[i].handles, ss[i].threads[t].stack, k);
    assert HandleAt(ss[i], ss[i].threads[t].stack[k].h);
  }

  // Two calls that have passed the closing flag of the same handle, and are not done with the
  // close, are the same call.
  lemma OneCloseAtATime(ss: seq<State>, ls: seq<Label>, i: nat, t: nat, j: nat, u: nat, k: nat)
    requires IsRun(ss, ls) && i < |ss|
    requires t < |ss[i].threads| && j < |ss[i].threads[t].stack| && u < |ss[i].threads| && k < |ss[i].threads[u].stack|
    requires ss[i].threads[t].stack[j].h == ss[i].threads[u].stack[k].h
    requires IsCritical(ss[i].threads[t].stack[j].pc) && IsCritical(ss[i].threads[u].stack[k].pc)
    ensures t == u && j == k
  {
    var ts := ss[i].threads;
    var h := ts[t].stack[j].h;
    OneCritical(ss, ls, i, t, j);
    if t < u || (t == u && j < k) {
      TwoFramesCounted(ts, t, j, u, k, Critical, h);
    } else if u < t || (t == u && k < j) {
      TwoFramesCounted(ts, u, k, t, j, Critical, h);
    }
  }

  // A handle whose closing flag is set although its resource is there is being closed by some call: when a close
  // fails, the flag is reset, so that the handle can be closed again.
  lemma FlagMeansClosing(ss: seq<State>, ls: seq<Label>, i: nat, h: Id)
    requires IsRun(ss, ls) && i < |ss| && h < |ss[i].handles| && OwnsResource(ss[i].handles[h])
    requires ss[i].handles[h].closing && ss[i].handles[h].pointer
    ensures Tally(ss[i].threads, Critical, h) == 1
  {
    RunIsGood(ss, ls, i);
    assert HandleAt(ss[i], h);
    TallyCoherent(ss[i].threads, h);
  }

  // ---- no call is ever stuck ----

  // Whatever OCI answers, the next step of a call can be taken; a list can always grow.
  lemma NeverStuck(ss: seq<State>, ls: seq<Label>, i: nat, t: nat, choice: Choice)
    requires IsRun(ss, ls) && i < |ss| && AtTop(ss[i], t)
    requires forall c :: 0 <= c < |ss[i].handles| ==>
                 choice.slot >= |ss[i].handles[c].objects| && choice.slot >= |ss[i].handles[c].lobs|
    ensures Enabled(ss[i], Run(t, choice))
  {
    var s := ss[i];
    var f := Top(s, t);
    RunIsGood(ss, ls, i);
    TopFrameOk(s, t);
    if ChangesLists(f) || ((f.pc.CheckOpen? || f.pc.CloseFree?) && s.handles[f.h].kind == Lob) {
      OwnerIs(s, t);
    } else if f.pc.ReleaseRefs? && s.handles[f.h].refs != [] {
      ReferencesAreLive(ss, ls, i, f.h, s.handles[f.h].refs[0]);
    }
  }

  // ---- nothing is left behind ----

  // The instance of a dependent object belongs to the object it is a part of.
  predicate OwnsResource(r: Handle) {
    r.kind == Connection || r.kind == Lob || (r.kind == Object && !Dependent(r))
  }

  predicate AllDone(s: State) {
    forall t :: 0 <= t < |s.threads| ==> s.threads[t] == Thread(multiset{}, [])
  }

  // Once all calls are over and nobody owns a reference, the memory of every handle was given
  // back, its free procedure having been called once, every session was ended exactly once, and every locator was
  // freed exactly once, as was the instance of every object that does not depend on another one.
  lemma {:induction false} NothingLeaks(ss: seq<State>, ls: seq<Label>, i: nat, h: Id)
    requires IsRun(ss, ls) && i < |ss| && AllDone(ss[i]) && h < |ss[i].handles|
    ensures ss[i].handles[h].deallocated && ss[i].handles[h].freeCalls == 1
    ensures OwnsResource(ss[i].handles[h]) ==> ss[i].handles[h].resourceFrees == 1
    decreases |ss[i].handles| - h
  {
    var s := ss[i];
    CountsAreReferences(ss, ls, i, h);
    NothingYet(s.threads, Tokens, h);
    NothingYet(s.threads, Jobs, h);
    if s.handles[h].count != 0 {
      var k := Referrer(s.handles, h);
      ReferencesAreLive(ss, ls, i, k, h);
      NothingLeaks(ss, ls, i, k);
      GoneRefersToNone(ss, ls, i, k);
    }
    if OwnsResource(s.handles[h]) {
      FreedResource(ss, ls, i, h);
    }
  }

  lemma GoneRefersToNone(ss: seq<State>, ls: seq<Label>, i: nat, h: Id)
    requires IsRun(ss, ls) && i < |ss| && h < |ss[i].handles| && ss[i].handles[h].deallocated
    ensures ss[i].handles[h].refs == []
  {
    RunIsGood(ss, ls, i);
    assert HandleAt(ss[i], h);
  }

  lemma FreedResource(ss: seq<State>, ls: seq<Label>, i: nat, h: Id)
    requires IsRun(ss, ls) && i < |ss| && h < |ss[i].handles| && ss[i].handles[h].deallocated
    requires OwnsResource(ss[i].handles[h])
    ensures ss[i].handles[h].resourceFrees == 1
  {
    RunIsGood(ss, ls, i);
    assert HandleAt(ss[i], h);
    TallyCoherent(ss[i].threads, h);
  }

  // ---- the lists of a connection ----

  // At every point of every run, the list of a connection that was never closed by a user holds
  // exactly its LOBs that have a locator and are neither being put in nor being taken out.
  lemma ListHoldsOpenLobs(ss: seq<State>, ls: seq<Label>, i: nat, c: Id, p: Id)
    requires IsRun(ss, ls) && i < |ss| && NeverClosed(ss[i], c)
    ensures var s := ss[i];
            Some(p) in s.handles[c].lobs <==>
              && OwnedBy(s.handles, p, c) && s.handles[p].kind == Lob && s.handles[p].pointer
              && Tally(s.threads, Enlisting, p) == 0 && Tally(s.threads, Unlisted, p) == 0
    ensures Some(p) in ss[i].handles[c].lobs ==> InList(ss[i], c, Lob, p)
  {
    RunIsGood(ss, ls, i);
    ListHolds(ss[i], c, Lob, p);
  }

  // And exactly its objects that have an instance, apart from those being put in, and those without one
  // that are being taken out. None stays behind because its indicator could not be freed: only the close
  // of a connection by a user checks for that.
  lemma ListHoldsObjects(ss: seq<State>, ls: seq<Label>, i: nat, c: Id, p: Id)
    requires IsRun(ss, ls) && i < |ss| && NeverClosed(ss[i], c)
    ensures var s := ss[i];
            Some(p) in s.handles[c].objects <==>
              && OwnedBy(s.handles, p, c) && s.handles[p].kind == Object && Tally(s.threads, Enlisting, p) == 0
              && (s.handles[p].pointer || Tally(s.threads, Freed, p) >= 1)
    ensures Some(p) in ss[i].handles[c].objects ==> InList(ss[i], c, Object, p)
  {
    RunIsGood(ss, ls, i);
    ListHolds(ss[i], c, Object, p);
  }

  lemma ListHolds(s: State, c: Id, kind: Kind, p: Id)
    requires c < |s.handles| && ListOk(s, c, kind)
    ensures Some(p) in KindList(s.handles[c], kind) <==> Listed(s, p, kind, c)
    ensures Some(p) in KindList(s.handles[c], kind) ==> InList(s, c, kind, p)
  {
    var l := KindList(s.handles[c], kind);
    if Some(p) in l {
      var k :| 0 <= k < |l| && l[k] == Some(p);
      assert EntryOk(s, c, kind, k);
    }
    if Listed(s, p, kind, c) {
      assert InList(s, c, kind, p);
    }
  }

  // Both lists are empty when the last reference to the connection has gone.
  lemma ListsAreEmptyAtTheEnd(ss: seq<State>, ls: seq<Label>, i: nat, c: Id)
    requires IsRun(ss, ls) && i < |ss| && NeverClosed(ss[i], c) && ss[i].handles[c].count == 0
    ensures forall k :: 0 <= k < |ss[i].handles[c].lobs| ==> ss[i].handles[c].lobs[k] == None
    ensures forall k :: 0 <= k < |ss[i].handles[c].objects| ==> ss[i].handles[c].objects[k] == None
  {
    RunIsGood(ss, ls, i);
    ListEmptyAtTheEnd(ss[i], c, Lob);
    ListEmptyAtTheEnd(ss[i], c, Object);
    assert KindList(ss[i].handles[c], Lob) == ss[i].handles[c].lobs;
    assert KindList(ss[i].handles[c], Object) == ss[i].handles[c].objects;
  }

  // Of an object, the instance is freed on behalf of a user only after its connection was closed.
  lemma ObjectsCloseWithConnection(ss: seq<State>, ls: seq<Label>, i: nat, t: nat, k: nat, c: Id)
    requires IsRun(ss, ls) && i < |ss| && t < |ss[i].threads| && k < |ss[i].threads[t].stack|
    requires var f := ss[i].threads[t].stack[k];
             Closes(f) && OwnedBy(ss[i].handles, f.h, c) && ss[i].handles[f.h].kind == Object
    ensures ss[i].handles[c].everClosed
  {
    RunIsGood(ss, ls, i);
    assert FrameOwned(ss[i].handles, ss[i].threads[t].stack[k]);
  }
}
