/** What a step can do to a handle that was closed, or is being closed, and where the closes of objects that a
    user brings about stand on the stacks. */
module LifetimeSettles {
  import opened Wrappers
  import opened Lifetimes
  import opened LifetimeCounts
  import opened LifetimeInvariant
  import opened LifetimeSteps
  import opened LifetimeKeeps
  import opened LifetimeRuns
  import opened LifetimeLists
  import opened LifetimeOwners
  import opened LifetimeOpen
  import opened LifetimeSafety

  // The handle was closed, someone has begun to close it, or it was freed.
  predicate Settled(r: Handle) {
    !r.pointer || r.closing || r.freeCalls >= 1
  }

  // ---- records ----

  // What no step brings back, and what ends the closing flag of a LOB or an object.
  predicate Persists(r: Handle, r': Handle, f: Frame) {
    && r'.kind == r.kind && (r'.pointer ==> r.pointer) && r'.freeCalls >= r.freeCalls
    && (r.closing && !r'.closing ==> f.pc.LobReset? || f.pc.ObjectReset? || f.pc.ConnReset?)
  }

  lemma LocalPersists(r: Handle, f: Frame, r': Handle, g: Frame, choice: Choice)
    requires LocalStep(r, f, r', g, choice) && FitsKind(r, f)
    ensures Persists(r, r', f)
  {
  }

  lemma ReferencePersists(s: State, t: nat, choice: Choice, s': State, p: Id)
    requires Runs(s, t, choice, s') && p < |s.handles|
    requires var pc := Top(s, t).pc; pc.Finish? || pc.ReleaseRefs? || pc.Deallocate? || pc.WalkCheck?
    ensures p < |s'.handles| && Persists(s.handles[p], s'.handles[p], Top(s, t))
  {
  }

  lemma RelistedPersists(s: State, t: nat, choice: Choice, s': State, p: Id)
    requires Runs(s, t, choice, s') && ChangesLists(Top(s, t)) && p < |s.handles|
    ensures p < |s'.handles| && Persists(s.handles[p], s'.handles[p], Top(s, t))
  {
    RelistedAll(s, t, choice, s');
    assert Relisted(s.handles[p], s'.handles[p]);
  }

  lemma RunPersists(s: State, t: nat, choice: Choice, s': State, p: Id)
    requires Inv(s) && Runs(s, t, choice, s') && p < |s.handles|
    ensures p < |s'.handles| && Persists(s.handles[p], s'.handles[p], Top(s, t))
    ensures p != Top(s, t).h && s.handles[p].closing ==> s'.handles[p].closing
  {
    var f := Top(s, t);
    TopFrameOk(s, t);
    if ChangesLists(f) {
      RelistedPersists(s, t, choice, s', p);
    } else if f.pc.Finish? || f.pc.ReleaseRefs? || f.pc.Deallocate? || f.pc.WalkCheck? {
      ReferencePersists(s, t, choice, s', p);
    } else {
      LocalRun(s, t, choice, s', s'.handles[f.h], Top(s', t));
      LocalFits(s, f);
      LocalPersists(s.handles[f.h], f, s'.handles[f.h], Top(s', t), choice);
      assert p != f.h ==> s'.handles[p] == s.handles[p];
    }
  }

  // A LOB has no locator when its closing flag is reset.
  lemma ResetLobIsClosed(s: State, t: nat)
    requires Inv(s) && AtTop(s, t) && Top(s, t).pc.LobReset? && Top(s, t).h < |s.handles|
    ensures s.handles[Top(s, t).h].kind == Lob && !s.handles[Top(s, t).h].pointer
  {
    var f := Top(s, t);
    TopOk(s, t);
    ResettingLob(s.handles[f.h], AroundNumbers(s.threads, t, f.h), RefsTo(s.handles, f.h), f);
  }

  lemma ResettingLob(r: Handle, n: Numbers, refsTo: int, f: Frame)
    requires HandleOk(r, Plus(n, FrameNumbers(f)), refsTo) && Coherent(n) && f.pc.LobReset? && r.kind == Lob
    ensures !r.pointer
  {
  }

  predicate ResetsObject(s: State, t: nat, p: Id) {
    AtTop(s, t) && Top(s, t).pc.ObjectReset? && Top(s, t).h == p
  }

  // Only a failed close of an object undoes what was begun.
  lemma RunSettled(s: State, t: nat, choice: Choice, s': State, p: Id)
    requires Inv(s) && Runs(s, t, choice, s') && p < |s.handles| && !ResetsObject(s, t, p)
    requires (s.handles[p].kind == Lob || s.handles[p].kind == Object) && Settled(s.handles[p])
    ensures p < |s'.handles| && Settled(s'.handles[p])
  {
    RunPersists(s, t, choice, s', p);
    TopFrameOk(s, t);
    if Top(s, t).pc.LobReset? && Top(s, t).h == p {
      ResetLobIsClosed(s, t);
    }
  }

  lemma NextSettled(s: State, l: Label, p: Id)
    requires Inv(s) && Enabled(s, l) && p < |s.handles| && !(l.Run? && ResetsObject(s, l.t, p))
    requires (s.handles[p].kind == Lob || s.handles[p].kind == Object) && Settled(s.handles[p])
    ensures p < |Next(s, l).handles| && Settled(Next(s, l).handles[p])
  {
    if l.Run? {
      RunSettled(s, l.t, l.choice, Next(s, l), p);
    } else {
      CallHandles(s, l, Next(s, l));
    }
  }

  // A resource that is gone does not come back.
  lemma NextUnpointed(s: State, l: Label, p: Id)
    requires Inv(s) && Enabled(s, l) && p < |s.handles| && !s.handles[p].pointer
    ensures p < |Next(s, l).handles| && !Next(s, l).handles[p].pointer && Next(s, l).handles[p].kind == s.handles[p].kind
  {
    if l.Run? {
      RunPersists(s, l.t, l.choice, Next(s, l), p);
    } else {
      CallHandles(s, l, Next(s, l));
    }
  }

  // The closing flag of a connection is reset by a close of it that fails.
  lemma NextClosing(s: State, l: Label, c: Id)
    requires Inv(s) && Enabled(s, l) && c < |s.handles| && s.handles[c].kind == Connection && s.handles[c].closing
    requires !(l.Run? && AtTop(s, l.t) && Top(s, l.t).h == c && Top(s, l.t).pc.ConnReset?)
    ensures c < |Next(s, l).handles| && Next(s, l).handles[c].kind == Connection && Next(s, l).handles[c].closing
  {
    if l.Run? {
      RunPersists(s, l.t, l.choice, Next(s, l), c);
      TopFrameOk(s, l.t);
    } else {
      CallHandles(s, l, Next(s, l));
    }
  }

  // ---- the lists of a connection that is being closed ----

  predicate HasEntry(r: Handle, list: nat, q: nat, p: Id) {
    q < |ListOf(r, list)| && ListOf(r, list)[q] == Some(p)
  }

  lemma PutElsewhere(l: seq<Option<Id>>, i: nat, e: Option<Id>, q: nat)
    requires q < |l| && i != q
    ensures q < |Put(l, i, e)| && Put(l, i, e)[q] == l[q]
  {
  }

  lemma SameListsEntry(f: Frame, r: Handle, r': Handle, list: nat, q: nat, p: Id)
    requires SameLists(f, r, r') && HasEntry(r, list, q, p)
    ensures HasEntry(r', list, q, p)
  {
  }

  // Nothing is taken out of them, and what is put in gets a free slot.
  lemma RunEntry(s: State, t: nat, choice: Choice, s': State, c: Id, list: nat, q: nat, p: Id)
    requires Inv(s) && Runs(s, t, choice, s') && c < |s.handles| && s.handles[c].closing && list <= 1
    requires HasEntry(s.handles[c], list, q, p)
    ensures c < |s'.handles| && HasEntry(s'.handles[c], list, q, p)
  {
    var f := Top(s, t);
    TopFrameOk(s, t);
    if !ChangesLists(f) {
      ListsStay(s, t, choice, s');
      SameListsEntry(f, s.handles[c], s'.handles[c], list, q, p);
    } else {
      ListsAfter(s, t, choice, s');
      if f.pc == Enlist && c == ListOwner(s, t) && choice.slot != q {
        PutElsewhere(ListOf(s.handles[c], list), choice.slot, Some(f.h), q);
      }
    }
  }

  lemma NextEntry(s: State, l: Label, c: Id, list: nat, q: nat, p: Id)
    requires Inv(s) && Enabled(s, l) && c < |s.handles| && s.handles[c].closing && list <= 1
    requires HasEntry(s.handles[c], list, q, p)
    ensures c < |Next(s, l).handles| && HasEntry(Next(s, l).handles[c], list, q, p)
  {
    if l.Run? {
      RunEntry(s, l.t, l.choice, Next(s, l), c, list, q, p);
    } else {
      CallHandles(s, l, Next(s, l));
    }
  }

  // ---- which calls close objects ----

  // The close of an object that is not made by its free procedure is made by the walk of its connection, right
  // below it on the stack.
  predicate UnderWalk(hs: seq<Handle>, stack: seq<Frame>, k: nat)
    requires k < |stack|
  {
    Closes(stack[k]) && stack[k].h < |hs| && hs[stack[k].h].kind == Object ==>
      k + 1 < |stack| && stack[k + 1].pc.Walk? && OwnedBy(hs, stack[k].h, stack[k + 1].h)
  }

  predicate StackNested(hs: seq<Handle>, stack: seq<Frame>) {
    forall k :: 0 <= k < |stack| ==> UnderWalk(hs, stack, k)
  }

  predicate Nested(s: State) {
    forall t :: 0 <= t < |s.threads| ==> StackNested(s.handles, s.threads[t].stack)
  }

  lemma UnderWalkKept(hs: seq<Handle>, hs': seq<Handle>, stack: seq<Frame>, k: nat)
    requires Extends(hs, hs') && k < |stack| && UnderWalk(hs, stack, k) && stack[k].h < |hs|
    ensures UnderWalk(hs', stack, k)
  {
    if k + 1 < |stack| {
      OwnerKept(hs, hs', stack[k].h, stack[k + 1].h);
    }
  }

  lemma StackNestedKept(hs: seq<Handle>, hs': seq<Handle>, stack: seq<Frame>)
    requires Extends(hs, hs') && |hs'| == |hs| && StackNested(hs, stack) && StackOk(hs', stack)
    ensures StackNested(hs', stack)
  {
    forall k | 0 <= k < |stack| ensures UnderWalk(hs', stack, k) {
      FrameInOkStack(hs', stack, k);
      UnderWalkKept(hs, hs', stack, k);
    }
  }

  // The stack when the frames on top were replaced.
  lemma NestedTop(hs: seq<Handle>, stack: seq<Frame>, top: seq<Frame>, stack': seq<Frame>)
    requires stack != [] && StackNested(hs, stack) && stack' == top + stack[1..]
    requires forall k :: 0 <= k < |top| ==> UnderWalk(hs, stack', k)
    ensures StackNested(hs, stack')
  {
    forall k | 0 <= k < |stack'| ensures UnderWalk(hs, stack', k) {
      if k >= |top| {
        assert stack'[k] == stack[k - |top| + 1];
        assert UnderWalk(hs, stack, k - |top| + 1);
        assert k + 1 < |stack'| ==> stack'[k + 1] == stack[k - |top| + 2];
      }
    }
  }

  // The step that begins to close an entry.
  lemma CheckNested(s: State, t: nat, choice: Choice, s': State)
    requires Runs(s, t, choice, s') && Top(s, t).pc.WalkCheck? && OwnedBy(s.handles, Top(s, t).pc.entry, Top(s, t).h)
    requires StackNested(s.handles, s.threads[t].stack)
    ensures t < |s'.threads| && StackNested(s.handles, s'.threads[t].stack)
  {
    var f, stack := Top(s, t), s.threads[t].stack;
    var stack' := s'.threads[t].stack;
    var w := f.(pc := Walk(f.pc.list, f.pc.pos + 1));
    if s.handles[f.pc.entry].checkInt {
      NestedTop(s.handles, stack, [Frame(f.pc.entry, false, false, CloseTest), w], stack');
    } else {
      NestedTop(s.handles, stack, [w], stack');
    }
  }

  // Other steps put at most one frame on top that closes an object, in place of one that does.
  lemma StackedNested(s: State, t: nat, choice: Choice, s': State)
    requires Runs(s, t, choice, s') && StacksFrames(s, t) && !Top(s, t).pc.WalkCheck? && FrameOk(s.handles, Top(s, t))
    requires StackNested(s.handles, s.threads[t].stack)
    ensures t < |s'.threads| && StackNested(s.handles, s'.threads[t].stack)
  {
    RunStacks(s, t, choice, s');
    var f, top, stack' := Top(s, t), NewTop(s, t, s'), s'.threads[t].stack;
    if f.pc.Walk? {
      WalkStacksEntry(s, t, choice, s');
    } else {
      OtherStacks(s, t, choice, s');
    }
    assert UnderWalk(s.handles, s.threads[t].stack, 0);
    assert stack' == top + s.threads[t].stack[1..];
    forall k | 0 <= k < |top| ensures UnderWalk(s.handles, stack', k) {
      assert Stacks(s.handles, f, top[k]) && stack'[k] == top[k];
      if Closes(top[k]) {
        OneCloses(s, t, choice, s');
      }
    }
    NestedTop(s.handles, s.threads[t].stack, top, stack');
  }

  // Such a frame is the only one that is put on top.
  lemma OneCloses(s: State, t: nat, choice: Choice, s': State)
    requires Runs(s, t, choice, s') && StacksFrames(s, t) && !Top(s, t).pc.WalkCheck?
    ensures |s'.threads| == |s.threads| && |s'.threads[t].stack| + 1 >= |s.threads[t].stack|
    ensures |NewTop(s, t, s')| <= 1 || !Closes(NewTop(s, t, s')[0])
    ensures |NewTop(s, t, s')| == 2 ==> !Closes(NewTop(s, t, s')[1])
    ensures |NewTop(s, t, s')| <= 2
  {
    RunStacks(s, t, choice, s');
  }

  lemma RunNested(s: State, t: nat, choice: Choice, s': State)
    requires FullInv(s) && OwnersOk(s) && Nested(s) && Runs(s, t, choice, s')
    ensures Nested(s')
  {
    RunStackNested(s, t, choice, s');
    TopFrameOk(s, t);
    RunExtends(s, t, choice, s');
    NextKeepsInv(s, Run(t, choice));
    OtherThreads(s, t, choice, s');
    forall u | 0 <= u < |s'.threads| ensures StackNested(s'.handles, s'.threads[u].stack) {
      StackNestedKept(s.handles, s'.handles, s'.threads[u].stack);
    }
  }

  lemma RunStackNested(s: State, t: nat, choice: Choice, s': State)
    requires FullInv(s) && OwnersOk(s) && Nested(s) && Runs(s, t, choice, s')
    ensures t < |s'.threads| && StackNested(s.handles, s'.threads[t].stack)
  {
    TopFrameOk(s, t);
    assert FrameOwned(s.handles, s.threads[t].stack[0]);
    assert StackNested(s.handles, s.threads[t].stack);
    if Top(s, t).pc.WalkCheck? {
      CheckNested(s, t, choice, s');
    } else if StacksFrames(s, t) {
      StackedNested(s, t, choice, s');
    } else {
      NestedTop(s.handles, s.threads[t].stack, [], s'.threads[t].stack);
    }
  }

  lemma CallNested(s: State, l: Label, s': State)
    requires Inv(s) && Nested(s) && Enabled(s, l) && !l.Run? && s' == Next(s, l)
    ensures Nested(s')
  {
    CallPlaces(s, l, s');
    forall u, k | 0 <= u < |s'.threads| && 0 <= k < |s'.threads[u].stack|
      ensures UnderWalk(s'.handles, s'.threads[u].stack, k)
    {
      CallFrames(s, l, s', u, k);
      if Closes(s'.threads[u].stack[k]) {
        CallStackSame(s, l, s', u, k);
        FrameInOkStack(s.handles, s.threads[u].stack, k);
        assert StackNested(s.handles, s.threads[u].stack);
        UnderWalkKept(s.handles, s'.handles, s.threads[u].stack, k);
      }
    }
  }

  // A call of a user begins on an empty stack.
  lemma CallStackSame(s: State, l: Label, s': State, u: nat, k: nat)
    requires Enabled(s, l) && !l.Run? && s' == Next(s, l)
    requires u < |s'.threads| && k < |s'.threads[u].stack| && Closes(s'.threads[u].stack[k])
    ensures u < |s.threads| && s'.threads[u].stack == s.threads[u].stack
  {
  }

  lemma NextNested(s: State, l: Label)
    requires FullInv(s) && OwnersOk(s) && Nested(s) && Enabled(s, l)
    ensures Nested(Next(s, l))
  {
    if l.Run? {
      RunNested(s, l.t, l.choice, Next(s, l));
    } else {
      CallNested(s, l, Next(s, l));
    }
  }

  lemma {:induction false} RunIsNested(ss: seq<State>, ls: seq<Label>, i: nat)
    requires IsRun(ss, ls) && i < |ss|
    ensures Nested(ss[i])
  {
    if i > 0 {
      RunIsNested(ss, ls, i - 1);
      RunIsGood(ss, ls, i - 1);
      assert ss[i - 1 + 1] == Next(ss[i - 1], ls[i - 1]);
      NextNested(ss[i - 1], ls[i - 1]);
    }
  }

  // While a call is closing a connection, a close of an object of that connection that fails is one that this call
  // makes.
  lemma OwnResetsOnly(ss: seq<State>, ls: seq<Label>, i: nat, t: nat, c: Id, u: nat, p: Id)
    requires IsRun(ss, ls) && i < |ss| && t < |ss[i].threads| && ss[i].threads[t].stack != []
    requires var stack := ss[i].threads[t].stack; stack[|stack| - 1].h == c && IsBusy(stack[|stack| - 1].pc)
    requires ResetsObject(ss[i], u, p) && OwnedBy(ss[i].handles, p, c)
    ensures u == t && |ss[i].threads[t].stack| == 2 && Fails(Top(ss[i], t))
  {
    var s := ss[i];
    RunIsGood(ss, ls, i);
    RunIsNested(ss, ls, i);
    TopFrameOk(s, u);
    assert StackNested(s.handles, s.threads[u].stack);
    assert UnderWalk(s.handles, s.threads[u].stack, 0);
    OneOwner(s.handles, p, c, s.threads[u].stack[1].h);
    OneCloseAtATime(ss, ls, i, t, |s.threads[t].stack| - 1, u, 1);
  }
}
