/** What a close by a user has brought about when it ends, whatever other threads do in between. */
module LifetimeCloses {
  import opened Wrappers
  import opened Lifetimes
  import opened LifetimeCounts
  import opened LifetimeInvariant
  import opened LifetimeSteps
  import opened LifetimeKeeps
  import opened LifetimeRuns
  import opened LifetimeLists
  import opened LifetimeOwners
  import opened LifetimeSafety
  import opened LifetimeSettles

  // ---- the call that a thread is in ----

  predicate InCall(s: State, t: nat) {
    t < |s.threads| && s.threads[t].stack != []
  }

  // The frame of the call itself, below those of the calls that it makes.
  function Bottom(s: State, t: nat): Frame
    requires InCall(s, t)
  {
    s.threads[t].stack[|s.threads[t].stack| - 1]
  }

  predicate IsStepOf(l: Label, t: nat) {
    l.Run? && l.t == t
  }

  lemma OtherStep(s: State, l: Label, t: nat)
    requires InCall(s, t) && Enabled(s, l) && !IsStepOf(l, t)
    ensures InCall(Next(s, l), t) && Next(s, l).threads[t].stack == s.threads[t].stack
  {
    if l.Run? {
      OtherThreads(s, l.t, l.choice, Next(s, l));
    }
  }

  // Steps of calls that the call makes leave its own frame alone.
  lemma InnerStep(s: State, t: nat, choice: Choice, s': State)
    requires Runs(s, t, choice, s') && |s.threads[t].stack| > 1
    ensures InCall(s', t) && Bottom(s', t) == Bottom(s, t)
  {
    if StacksFrames(s, t) {
      RunStacks(s, t, choice, s');
      assert s'.threads[t].stack == NewTop(s, t, s') + s.threads[t].stack[1..];
    }
  }

  // ---- the walk of the lists ----

  // The walk is behind slot q of the list.
  predicate Before(list: nat, q: nat, l: nat, pos: nat) {
    list < l || (list == l && q < pos)
  }

  predicate HasPassed(w: Frame, list: nat, q: nat) {
    match w.pc
    case Walk(l, pos) => Before(list, q, l, pos)
    case WalkCheck(l, pos, _) => Before(list, q, l, pos)
    case _ => true
  }

  // The close of the entry is about to begin.
  predicate Pending(stack: seq<Frame>, p: Id) {
    |stack| == 2 && stack[0].h == p && stack[0].pc.CloseTest? && !stack[0].freeing
  }

  // A user's close of connection c walks its lists, and is about to end the session behind them.
  predicate Closing(s: State, t: nat, c: Id) {
    && InCall(s, t) && c < |s.handles| && s.handles[c].kind == Connection && s.handles[c].closing
    && var w := Bottom(s, t);
       && w.h == c && !w.freeing && w.keep && (w.pc.Walk? || w.pc.WalkCheck? || w.pc.EndSession?)
       && (|s.threads[t].stack| > 1 ==> w.pc.Walk?)
       && (w.pc.Walk? ==> w.pc.list <= 1) && (w.pc.WalkCheck? ==> w.pc.list <= 1)
  }

  // It ends: with the session, or because something failed.
  predicate Over(s: State, t: nat, c: Id) {
    && InCall(s, t) && |s.threads[t].stack| == 1
    && var w := Bottom(s, t); w.h == c && !w.freeing && w.keep && (w.pc.ConnReset? || w.pc.Finish?)
  }

  // The entry behind which the walk is was closed or is being closed, unless a close failed or is about to begin.
  predicate Progress(s: State, t: nat, c: Id, list: nat, q: nat, p: Id, failed: bool) {
    && Closing(s, t, c) && list <= 1 && HasEntry(s.handles[c], list, q, p) && p < |s.handles|
    && var w := Bottom(s, t);
       && (HasPassed(w, list, q) ==> Settled(s.handles[p]) || failed || Pending(s.threads[t].stack, p))
       && (w.pc.WalkCheck? && w.pc.list == list && w.pc.pos == q ==> w.pc.entry == p)
       && (w.pc.EndSession? ==> Settled(s.handles[p]))
  }

  lemma EntryIs(s: State, c: Id, list: nat, q: nat, p: Id)
    requires OwnersOk(s) && c < |s.handles| && list <= 1 && HasEntry(s.handles[c], list, q, p)
    ensures OwnedBy(s.handles, p, c) && s.handles[p].kind == if list == 0 then Object else Lob
  {
    assert EntriesOwned(s.handles, s.handles[c].objects, Object, c) && EntriesOwned(s.handles, s.handles[c].lobs, Lob, c);
  }

  // What every step keeps of the walk, by whatever thread.
  lemma StaysThere(s: State, l: Label, c: Id, list: nat, q: nat, p: Id)
    requires Inv(s) && OwnersOk(s) && Enabled(s, l) && c < |s.handles| && s.handles[c].kind == Connection
    requires s.handles[c].closing && list <= 1 && HasEntry(s.handles[c], list, q, p)
    requires !(l.Run? && AtTop(s, l.t) && Top(s, l.t).h == c && Top(s, l.t).pc.ConnReset?)
    ensures p < |s.handles| <= |Next(s, l).handles| && Next(s, l).handles[c].kind == Connection
    ensures Next(s, l).handles[c].closing && HasEntry(Next(s, l).handles[c], list, q, p)
  {
    EntryIs(s, c, list, q, p);
    NextClosing(s, l, c);
    NextEntry(s, l, c, list, q, p);
    if l.Run? {
      RunPersists(s, l.t, l.choice, Next(s, l), |s.handles| - 1);
    } else {
      CallHandles(s, l, Next(s, l));
    }
  }

  // No other thread ends the closing flag of a connection that a call is closing.
  lemma NobodyElseResets(ss: seq<State>, ls: seq<Label>, i: nat, t: nat, c: Id, u: nat)
    requires IsRun(ss, ls) && i < |ss| && Closing(ss[i], t, c) && AtTop(ss[i], u) && Top(ss[i], u).h == c
    ensures !Top(ss[i], u).pc.ConnReset?
  {
    if Top(ss[i], u).pc.ConnReset? {
      OneCloseAtATime(ss, ls, i, t, |ss[i].threads[t].stack| - 1, u, 0);
    }
  }

  // What was closed stays so unless a close fails that this call makes.
  lemma SettledOrFailed(ss: seq<State>, ls: seq<Label>, i: nat, t: nat, c: Id, list: nat, q: nat, p: Id)
    requires IsRun(ss, ls) && i < |ls| && Closing(ss[i], t, c) && list <= 1 && HasEntry(ss[i].handles[c], list, q, p)
    requires p < |ss[i].handles| && (Settled(ss[i].handles[p]) || Failed(ss, ls, i, t))
    ensures p < |ss[i + 1].handles| && (Settled(ss[i + 1].handles[p]) || Failed(ss, ls, i + 1, t))
  {
    RunIsGood(ss, ls, i);
    EntryIs(ss[i], c, list, q, p);
    NothingIsUndone(ss, ls, i, i + 1, p);
    FailedStays(ss, ls, i, t);
    if ls[i].Run? && ResetsObject(ss[i], ls[i].t, p) {
      OwnResetsOnly(ss, ls, i, t, c, ls[i].t, p);
    } else if Settled(ss[i].handles[p]) {
      StepSettled(ss[i], ls[i], ss[i + 1], p);
    }
  }

  // No other thread can undo it.
  lemma SettledByOthers(ss: seq<State>, ls: seq<Label>, i: nat, t: nat, c: Id, list: nat, q: nat, p: Id)
    requires IsRun(ss, ls) && i < |ls| && Closing(ss[i], t, c) && list <= 1 && HasEntry(ss[i].handles[c], list, q, p)
    requires p < |ss[i].handles| && Settled(ss[i].handles[p]) && !IsStepOf(ls[i], t)
    ensures p < |ss[i + 1].handles| && Settled(ss[i + 1].handles[p])
  {
    RunIsGood(ss, ls, i);
    EntryIs(ss[i], c, list, q, p);
    if ls[i].Run? && ResetsObject(ss[i], ls[i].t, p) {
      OwnResetsOnly(ss, ls, i, t, c, ls[i].t, p);
    } else {
      StepSettled(ss[i], ls[i], ss[i + 1], p);
    }
  }

  lemma StepSettled(s: State, l: Label, s': State, p: Id)
    requires Inv(s) && Enabled(s, l) && s' == Next(s, l) && p < |s.handles| && !(l.Run? && ResetsObject(s, l.t, p))
    requires (s.handles[p].kind == Lob || s.handles[p].kind == Object) && Settled(s.handles[p])
    ensures p < |s'.handles| && Settled(s'.handles[p])
  {
    NextSettled(s, l, p);
  }

  lemma FailedStays(ss: seq<State>, ls: seq<Label>, i: nat, t: nat)
    requires IsRun(ss, ls) && i < |ls| && InCall(ss[i], t)
    ensures Failed(ss, ls, i, t) ==> Failed(ss, ls, i + 1, t)
    ensures IsStepOf(ls[i], t) && Fails(Top(ss[i], t)) ==> Failed(ss, ls, i + 1, t)
  {
    assert Enabled(ss[i], ls[i]);
  }

  // The walk is where it was, and nothing that it needs has changed.
  lemma ProgressStays(s: State, s': State, t: nat, c: Id, list: nat, q: nat, p: Id, failed: bool, failed': bool)
    requires Progress(s, t, c, list, q, p, failed) && InCall(s', t) && s'.threads[t].stack == s.threads[t].stack
    requires c < |s'.handles| && s'.handles[c].kind == Connection && s'.handles[c].closing
    requires HasEntry(s'.handles[c], list, q, p) && p < |s'.handles|
    requires (Settled(s.handles[p]) ==> Settled(s'.handles[p])) && (failed ==> failed')
    ensures Progress(s', t, c, list, q, p, failed')
  {
  }

  lemma OtherProgress(ss: seq<State>, ls: seq<Label>, i: nat, t: nat, c: Id, list: nat, q: nat, p: Id)
    requires IsRun(ss, ls) && i < |ls| && Progress(ss[i], t, c, list, q, p, Failed(ss, ls, i, t)) && !IsStepOf(ls[i], t)
    ensures Progress(ss[i + 1], t, c, list, q, p, Failed(ss, ls, i + 1, t))
  {
    RunIsGood(ss, ls, i);
    StepIs(ss, ls, i);
    OtherStep(ss[i], ls[i], t);
    if ls[i].Run? && AtTop(ss[i], ls[i].t) && Top(ss[i], ls[i].t).h == c {
      NobodyElseResets(ss, ls, i, t, c, ls[i].t);
    }
    StaysThere(ss[i], ls[i], c, list, q, p);
    FailedStays(ss, ls, i, t);
    if Settled(ss[i].handles[p]) {
      SettledByOthers(ss, ls, i, t, c, list, q, p);
    }
    ProgressStays(ss[i], ss[i + 1], t, c, list, q, p, Failed(ss, ls, i, t), Failed(ss, ls, i + 1, t));
  }

  lemma StepIs(ss: seq<State>, ls: seq<Label>, i: nat)
    requires IsRun(ss, ls) && i < |ls|
    ensures Enabled(ss[i], ls[i]) && ss[i + 1] == Next(ss[i], ls[i])
  {
  }

  // The first step of the close of an entry sets its closing flag.
  lemma TestSettles(s: State, t: nat, choice: Choice, s': State)
    requires Runs(s, t, choice, s') && Top(s, t).pc.CloseTest?
    ensures Top(s, t).h < |s'.handles| && Settled(s'.handles[Top(s, t).h])
  {
  }

  lemma InnerProgress(ss: seq<State>, ls: seq<Label>, i: nat, t: nat, c: Id, list: nat, q: nat, p: Id)
    requires IsRun(ss, ls) && i < |ls| && Progress(ss[i], t, c, list, q, p, Failed(ss, ls, i, t)) && IsStepOf(ls[i], t)
    requires |ss[i].threads[t].stack| > 1
    ensures Progress(ss[i + 1], t, c, list, q, p, Failed(ss, ls, i + 1, t))
  {
    var s, l := ss[i], ls[i];
    RunIsGood(ss, ls, i);
    assert Enabled(s, l) && ss[i + 1] == Next(s, l);
    InnerStep(s, t, l.choice, ss[i + 1]);
    if Top(s, t).h == c {
      NobodyElseResets(ss, ls, i, t, c, t);
    }
    StaysThere(s, l, c, list, q, p);
    if Settled(s.handles[p]) || Failed(ss, ls, i, t) {
      SettledOrFailed(ss, ls, i, t, c, list, q, p);
    } else if Pending(s.threads[t].stack, p) {
      TestSettles(s, t, l.choice, ss[i + 1]);
    }
  }

  // A handle without a check integer is being freed or was freed.
  lemma UncheckedIsFreed(s: State, p: Id)
    requires Inv(s) && p < |s.handles| && !s.handles[p].checkInt
    ensures Settled(s.handles[p])
  {
    assert HandleAt(s, p);
  }

  lemma WalkStep(s: State, t: nat, choice: Choice, s': State, c: Id, list: nat, q: nat, p: Id)
    requires Runs(s, t, choice, s') && |s.threads[t].stack| == 1 && Top(s, t).pc.Walk?
    requires Progress(s, t, c, list, q, p, false)
    ensures if choice.ok then Progress(s', t, c, list, q, p, false) else Over(s', t, c)
  {
  }

  lemma CheckStep(s: State, t: nat, choice: Choice, s': State, c: Id, list: nat, q: nat, p: Id, failed: bool)
    requires Inv(s) && OwnersOk(s) && Runs(s, t, choice, s') && |s.threads[t].stack| == 1 && Top(s, t).pc.WalkCheck?
    requires Progress(s, t, c, list, q, p, failed)
    ensures Progress(s', t, c, list, q, p, failed)
  {
    var e := Top(s, t).pc.entry;
    EntryIs(s, c, list, q, p);
    StaysThere(s, Run(t, choice), c, list, q, p);
    assert Next(s, Run(t, choice)) == s';
    if Settled(s.handles[p]) {
      RunSettled(s, t, choice, s', p);
    } else if e == p && !s.handles[p].checkInt {
      UncheckedIsFreed(s, p);
    }
    CheckStacks(s, t, choice, s');
  }

  lemma CheckStacks(s: State, t: nat, choice: Choice, s': State)
    requires Runs(s, t, choice, s') && |s.threads[t].stack| == 1 && Top(s, t).pc.WalkCheck?
    ensures |s'.threads| == |s.threads|
    ensures var f, e := Top(s, t), Top(s, t).pc.entry;
            s'.threads[t].stack == if s.handles[e].checkInt
                                   then [Frame(e, false, false, CloseTest), f.(pc := Walk(f.pc.list, f.pc.pos + 1))]
                                   else [f.(pc := Walk(f.pc.list, f.pc.pos + 1))]
  {
  }

  lemma EndStep(s: State, t: nat, choice: Choice, s': State, c: Id)
    requires Runs(s, t, choice, s') && Closing(s, t, c) && |s.threads[t].stack| == 1 && Top(s, t).pc.EndSession?
    ensures Over(s', t, c) && (choice.ok ==> !s'.handles[c].pointer && Bottom(s', t).pc == Finish)
  {
  }

  lemma OwnProgress(ss: seq<State>, ls: seq<Label>, i: nat, t: nat, c: Id, list: nat, q: nat, p: Id)
    requires IsRun(ss, ls) && i < |ls| && Progress(ss[i], t, c, list, q, p, Failed(ss, ls, i, t)) && IsStepOf(ls[i], t)
    requires |ss[i].threads[t].stack| == 1
    ensures Progress(ss[i + 1], t, c, list, q, p, Failed(ss, ls, i + 1, t)) || Over(ss[i + 1], t, c)
  {
    var s, l, failed := ss[i], ls[i], Failed(ss, ls, i, t);
    RunIsGood(ss, ls, i);
    assert Enabled(s, l) && ss[i + 1] == Next(s, l) && GoesOn(ss, ls, i);
    FailedStays(ss, ls, i, t);
    if Top(s, t).pc.EndSession? {
      EndStep(s, t, l.choice, ss[i + 1], c);
    } else if Top(s, t).pc.WalkCheck? {
      CheckStep(s, t, l.choice, ss[i + 1], c, list, q, p, failed);
    } else if l.choice.ok {
      WalkStep(s, t, l.choice, ss[i + 1], c, list, q, p);
    } else {
      GivesUpNow(s, t, l.choice, ss[i + 1], c);
    }
  }

  lemma GivesUpNow(s: State, t: nat, choice: Choice, s': State, c: Id)
    requires Runs(s, t, choice, s') && Closing(s, t, c) && |s.threads[t].stack| == 1 && Top(s, t).pc.Walk? && !choice.ok
    ensures Over(s', t, c)
  {
  }

  lemma OverStays(s: State, l: Label, t: nat, c: Id)
    requires Inv(s) && Over(s, t, c) && Enabled(s, l) && InCall(Next(s, l), t)
    ensures Over(Next(s, l), t, c)
  {
    if !IsStepOf(l, t) {
      OtherStep(s, l, t);
    }
  }

  lemma {:induction false} OverUntilDone(ss: seq<State>, ls: seq<Label>, i: nat, j: nat, t: nat, c: Id)
    requires IsRun(ss, ls) && i <= j < |ss| && Over(ss[i], t, c)
    requires forall k :: i <= k <= j ==> InCall(ss[k], t)
    ensures Over(ss[j], t, c)
    decreases j - i
  {
    if i < j {
      RunIsGood(ss, ls, i);
      assert ss[i + 1] == Next(ss[i], ls[i]);
      OverStays(ss[i], ls[i], t, c);
      OverUntilDone(ss, ls, i + 1, j, t, c);
    }
  }

  lemma {:induction false} ProgressUntilEnd(ss: seq<State>, ls: seq<Label>, i: nat, j: nat, t: nat, c: Id, list: nat,
                                            q: nat, p: Id)
    requires IsRun(ss, ls) && i <= j < |ss| && Progress(ss[i], t, c, list, q, p, Failed(ss, ls, i, t))
    requires forall k :: i <= k <= j ==> InCall(ss[k], t)
    requires Bottom(ss[j], t).pc.EndSession?
    ensures Progress(ss[j], t, c, list, q, p, Failed(ss, ls, j, t))
    decreases j - i
  {
    if i < j {
      if !IsStepOf(ls[i], t) {
        OtherProgress(ss, ls, i, t, c, list, q, p);
      } else if |ss[i].threads[t].stack| > 1 {
        InnerProgress(ss, ls, i, t, c, list, q, p);
      } else {
        OwnProgress(ss, ls, i, t, c, list, q, p);
      }
      if Over(ss[i + 1], t, c) {
        OverUntilDone(ss, ls, i + 1, j, t, c);
      } else {
        ProgressUntilEnd(ss, ls, i + 1, j, t, c, list, q, p);
      }
    }
  }

  lemma SettledMeans(s: State, c: Id, p: Id)
    requires Inv(s) && OwnedBy(s.handles, p, c) && Settled(s.handles[p])
    ensures var r := s.handles[p];
            !r.pointer || Tally(s.threads, Critical, p) >= 1 || r.freeCalls >= 1
  {
    HandleNow(s, p, s.handles[p], NumbersAt(s.threads, p), RefsTo(s.handles, p));
    SettledNumbers(s.handles[p], NumbersAt(s.threads, p), RefsTo(s.handles, p));
  }

  lemma SettledNumbers(r: Handle, n: Numbers, refsTo: int)
    requires HandleOk(r, n, refsTo) && Settled(r) && (r.kind == Lob || (r.kind == Object && !Dependent(r)))
    ensures !r.pointer || n.critical != 0 || r.freeCalls >= 1
  {
  }

  // Before the session of a connection ends that a user closes, everything that was in one of its lists when the walk
  // of the lists began was closed, or is being closed by another call, or has no references any more. It holds
  // whatever other threads do, and whatever OCI answers.
  lemma EverythingIsClosedFirst(ss: seq<State>, ls: seq<Label>, i: nat, j: nat, t: nat, c: Id, p: Id)
    requires IsRun(ss, ls) && i < j < |ss| && t < |ss[i].threads| && c < |ss[i].handles|
    requires ss[i].threads[t].stack == [Frame(c, false, true, Walk(0, 0))] && ss[i].handles[c].closing
    requires forall k :: i <= k <= j ==> t < |ss[k].threads| && ss[k].threads[t].stack != []
    requires ss[j].threads[t].stack == [Frame(c, false, true, EndSession)]
    requires Some(p) in ss[i].handles[c].lobs || Some(p) in ss[i].handles[c].objects
    ensures p < |ss[j].handles|
            && (!ss[j].handles[p].pointer || Tally(ss[j].threads, Critical, p) >= 1 || ss[j].handles[p].freeCalls >= 1)
  {
    var list, q := Entry(ss[i].handles[c], p);
    WalkBegins(ss, ls, i, t, c, list, q, p);
    ProgressUntilEnd(ss, ls, i, j, t, c, list, q, p);
    RunIsGood(ss, ls, j);
    EntryIs(ss[j], c, list, q, p);
    SettledMeans(ss[j], c, p);
  }

  lemma WalkBegins(ss: seq<State>, ls: seq<Label>, i: nat, t: nat, c: Id, list: nat, q: nat, p: Id)
    requires IsRun(ss, ls) && i < |ls| && t < |ss[i].threads| && c < |ss[i].handles| && ss[i].handles[c].closing
    requires ss[i].threads[t].stack == [Frame(c, false, true, Walk(0, 0))]
    requires list <= 1 && HasEntry(ss[i].handles[c], list, q, p)
    ensures Progress(ss[i], t, c, list, q, p, Failed(ss, ls, i, t))
  {
    RunIsGood(ss, ls, i);
    TopFrameOk(ss[i], t);
    EntryIs(ss[i], c, list, q, p);
  }

  lemma Entry(r: Handle, p: Id) returns (list: nat, q: nat)
    requires Some(p) in r.lobs || Some(p) in r.objects
    ensures list <= 1 && HasEntry(r, list, q, p)
  {
    if Some(p) in r.lobs {
      q :| q < |r.lobs| && r.lobs[q] == Some(p);
      list := 1;
    } else {
      q :| q < |r.objects| && r.objects[q] == Some(p);
      list := 0;
    }
  }

  // ---- the whole close of a connection ----

  // The steps of the call itself, not of the closes that it makes, get good answers.
  predicate AnswersOk(ss: seq<State>, ls: seq<Label>, i: nat, j: nat, t: nat)
    requires i <= j <= |ls| < |ss|
  {
    forall k :: i <= k < j && IsStepOf(ls[k], t) && InCall(ss[k], t) && |ss[k].threads[t].stack| == 1 ==> ls[k].choice.ok
  }

  // Before the walk: the checks and the test of the closing flag.
  predicate Opening(s: State, t: nat, c: Id) {
    && t < |s.threads| && c < |s.handles| && s.handles[c].kind == Connection
    && (s.threads[t].stack == [Frame(c, false, true, CheckOpen)] || s.threads[t].stack == [Frame(c, false, true, ConnTest)])
  }

  predicate BeginsWalk(s: State, t: nat, c: Id) {
    && t < |s.threads| && c < |s.handles| && s.handles[c].kind == Connection && s.handles[c].closing
    && s.threads[t].stack == [Frame(c, false, true, Walk(0, 0))]
  }

  // An open connection that nobody is closing is taken through the checks to the walk.
  lemma OpeningStep(s: State, t: nat, choice: Choice, s': State, c: Id)
    requires Runs(s, t, choice, s') && Opening(s, t, c) && choice.ok && s.handles[c].pointer && !s.handles[c].closing
    ensures if Top(s, t).pc.CheckOpen? then Opening(s', t, c) else BeginsWalk(s', t, c)
  {
  }

  lemma KindStays(s: State, l: Label, c: Id)
    requires Inv(s) && Enabled(s, l) && c < |s.handles|
    ensures c < |Next(s, l).handles| && Next(s, l).handles[c].kind == s.handles[c].kind
  {
    if l.Run? {
      RunPersists(s, l.t, l.choice, Next(s, l), c);
    } else {
      CallHandles(s, l, Next(s, l));
    }
  }

  // Either the walk begins, or the connection turns out to be closed, or being closed, already.
  lemma {:induction false} WalkOrRefusal(ss: seq<State>, ls: seq<Label>, i: nat, j: nat, t: nat, c: Id) returns (k: nat)
    requires IsRun(ss, ls) && i <= j <= |ls| && Opening(ss[i], t, c) && AnswersOk(ss, ls, i, j, t)
    requires Idle(ss[j], t)
    ensures i <= k < j
    ensures BeginsWalk(ss[k], t, c)
            || (Opening(ss[k], t, c) && IsStepOf(ls[k], t) && (!ss[k].handles[c].pointer || ss[k].handles[c].closing))
    decreases j - i
  {
    var s, l := ss[i], ls[i];
    RunIsGood(ss, ls, i);
    assert Enabled(s, l) && ss[i + 1] == Next(s, l);
    KindStays(s, l, c);
    if !IsStepOf(l, t) {
      OtherStep(s, l, t);
      k := WalkOrRefusal(ss, ls, i + 1, j, t, c);
    } else if !s.handles[c].pointer || s.handles[c].closing {
      k := i;
    } else {
      OpeningStep(s, t, l.choice, ss[i + 1], c);
      if BeginsWalk(ss[i + 1], t, c) {
        k := i + 1;
      } else {
        k := WalkOrRefusal(ss, ls, i + 1, j, t, c);
      }
    }
  }

  lemma ClosingStep(ss: seq<State>, ls: seq<Label>, i: nat, t: nat, c: Id)
    requires IsRun(ss, ls) && i < |ls| && Closing(ss[i], t, c)
    requires IsStepOf(ls[i], t) && |ss[i].threads[t].stack| == 1 ==> ls[i].choice.ok && !Bottom(ss[i], t).pc.EndSession?
    ensures Closing(ss[i + 1], t, c)
  {
    var s, l := ss[i], ls[i];
    RunIsGood(ss, ls, i);
    assert Enabled(s, l) && ss[i + 1] == Next(s, l);
    if l.Run? && AtTop(s, l.t) && Top(s, l.t).h == c {
      NobodyElseResets(ss, ls, i, t, c, l.t);
    }
    NextClosing(s, l, c);
    if !IsStepOf(l, t) {
      OtherStep(s, l, t);
    } else if |s.threads[t].stack| > 1 {
      InnerStep(s, t, l.choice, ss[i + 1]);
    } else {
      NextOfWalk(s, t, l.choice, ss[i + 1], c);
    }
  }

  lemma NextOfWalk(s: State, t: nat, choice: Choice, s': State, c: Id)
    requires Runs(s, t, choice, s') && Closing(s, t, c) && |s.threads[t].stack| == 1 && choice.ok
    requires !Bottom(s, t).pc.EndSession?
    ensures InCall(s', t) && Bottom(s', t).h == c && !Bottom(s', t).freeing && Bottom(s', t).keep
    ensures var w := Bottom(s', t);
            && (w.pc.Walk? || w.pc.WalkCheck? || w.pc.EndSession?) && (|s'.threads[t].stack| > 1 ==> w.pc.Walk?)
            && (w.pc.Walk? ==> w.pc.list <= 1) && (w.pc.WalkCheck? ==> w.pc.list <= 1)
  {
  }

  lemma {:induction false} GoneStays(ss: seq<State>, ls: seq<Label>, i: nat, j: nat, h: Id)
    requires IsRun(ss, ls) && i <= j < |ss| && h < |ss[i].handles| && !ss[i].handles[h].pointer
    ensures h < |ss[j].handles| && !ss[j].handles[h].pointer && ss[j].handles[h].kind == ss[i].handles[h].kind
    decreases j - i
  {
    if i < j {
      RunIsGood(ss, ls, i);
      assert Enabled(ss[i], ls[i]) && ss[i + 1] == Next(ss[i], ls[i]);
      NextUnpointed(ss[i], ls[i], h);
      GoneStays(ss, ls, i + 1, j, h);
    }
  }

  lemma EndsNow(ss: seq<State>, ls: seq<Label>, i: nat, j: nat, t: nat, c: Id)
    requires IsRun(ss, ls) && i < j <= |ls| && Closing(ss[i], t, c) && IsStepOf(ls[i], t) && ls[i].choice.ok
    requires |ss[i].threads[t].stack| == 1 && Bottom(ss[i], t).pc.EndSession?
    ensures ss[i].threads[t].stack == [Frame(c, false, true, EndSession)]
    ensures c < |ss[j].handles| && ss[j].handles[c].kind == Connection && !ss[j].handles[c].pointer
  {
    StepIs(ss, ls, i);
    EndStep(ss[i], t, ls[i].choice, ss[i + 1], c);
    RunIsGood(ss, ls, i);
    KindStays(ss[i], ls[i], c);
    GoneStays(ss, ls, i + 1, j, c);
  }

  // The walk comes to the end of the session.
  lemma {:induction false} SessionEnds(ss: seq<State>, ls: seq<Label>, i: nat, j: nat, t: nat, c: Id) returns (m: nat)
    requires IsRun(ss, ls) && i <= j <= |ls| && Closing(ss[i], t, c) && AnswersOk(ss, ls, i, j, t)
    requires Idle(ss[j], t)
    ensures i <= m < j && Closing(ss[m], t, c) && ss[m].threads[t].stack == [Frame(c, false, true, EndSession)]
    ensures forall k :: i <= k <= m ==> InCall(ss[k], t)
    ensures c < |ss[j].handles| && ss[j].handles[c].kind == Connection && !ss[j].handles[c].pointer
    decreases j - i
  {
    if IsStepOf(ls[i], t) && |ss[i].threads[t].stack| == 1 && Bottom(ss[i], t).pc.EndSession? {
      m := i;
      EndsNow(ss, ls, i, j, t, c);
    } else {
      ClosingStep(ss, ls, i, t, c);
      m := SessionEnds(ss, ls, i + 1, j, t, c);
    }
  }

  lemma GoneIsFreed(s: State, h: Id)
    requires Inv(s) && h < |s.handles| && !s.handles[h].pointer
    requires s.handles[h].kind == Connection || s.handles[h].kind == Lob
    ensures s.handles[h].resourceFrees == 1
  {
    assert HandleAt(s, h);
  }

  // A close of a connection by a user that gets good answers either finds it closed or being closed already, or walks
  // its lists and then ends the session. Everything that was in its lists when the walk began was closed before, or
  // was being closed by another call then, or had no references any more.
  lemma CloseOfConnection(ss: seq<State>, ls: seq<Label>, i: nat, j: nat, t: nat, c: Id)
      returns (refused: bool, k: nat, m: nat)
    requires IsRun(ss, ls) && i < j <= |ls| && ls[i] == CallClose(t, c) && KindIs(ss[i].handles, c, Connection)
    requires AnswersOk(ss, ls, i + 1, j, t) && Idle(ss[j], t)
    requires forall n :: i < n < j ==> InCall(ss[n], t)
    ensures i < k <= m < j && c < |ss[k].handles| && c < |ss[j].handles|
    ensures refused ==> !ss[k].handles[c].pointer || ss[k].handles[c].closing
    ensures !refused ==>
              && t < |ss[k].threads| && ss[k].threads[t].stack == [Frame(c, false, true, Walk(0, 0))]
              && t < |ss[m].threads| && ss[m].threads[t].stack == [Frame(c, false, true, EndSession)]
              && !ss[j].handles[c].pointer && ss[j].handles[c].resourceFrees == 1
    ensures !refused ==>
              forall p: Id :: Some(p) in ss[k].handles[c].lobs || Some(p) in ss[k].handles[c].objects ==>
                p < |ss[m].handles|
                && (!ss[m].handles[p].pointer || Tally(ss[m].threads, Critical, p) >= 1 || ss[m].handles[p].freeCalls >= 1)
  {
    assert Enabled(ss[i], ls[i]) && ss[i + 1] == Next(ss[i], ls[i]);
    k := WalkOrRefusal(ss, ls, i + 1, j, t, c);
    NothingIsUndone(ss, ls, k, j, c);
    refused := !BeginsWalk(ss[k], t, c);
    m := k;
    if !refused {
      m := SessionEnds(ss, ls, k, j, t, c);
      RunIsGood(ss, ls, j);
      GoneIsFreed(ss[j], c);
      AllClosedFirst(ss, ls, k, m, t, c);
    }
  }

  lemma AllClosedFirst(ss: seq<State>, ls: seq<Label>, k: nat, m: nat, t: nat, c: Id)
    requires IsRun(ss, ls) && k <= m < |ss| && BeginsWalk(ss[k], t, c)
    requires forall n :: k <= n <= m ==> InCall(ss[n], t)
    requires InCall(ss[m], t) && ss[m].threads[t].stack == [Frame(c, false, true, EndSession)]
    ensures forall p: Id :: Some(p) in ss[k].handles[c].lobs || Some(p) in ss[k].handles[c].objects ==>
                p < |ss[m].handles|
                && (!ss[m].handles[p].pointer || Tally(ss[m].threads, Critical, p) >= 1 || ss[m].handles[p].freeCalls >= 1)
  {
    assert k < m;
    forall p: Id | Some(p) in ss[k].handles[c].lobs || Some(p) in ss[k].handles[c].objects
      ensures p < |ss[m].handles|
              && (!ss[m].handles[p].pointer || Tally(ss[m].threads, Critical, p) >= 1 || ss[m].handles[p].freeCalls >= 1)
    {
      EverythingIsClosedFirst(ss, ls, k, m, t, c, p);
    }
  }

  // ---- closes that do nothing ----

  // A close by a user that does not pass its check, and any close that finds the closing flag set, ends without
  // changing a handle.
  lemma RefusedCloseDoesNothing(s: State, t: nat, choice: Choice, s': State)
    requires Inv(s) && Runs(s, t, choice, s') && Top(s, t).h < |s.handles|
    requires var f, r := Top(s, t), s.handles[Top(s, t).h];
             || (f.pc == CheckOpen && (!choice.ok || !r.pointer || (r.kind == Connection && r.closing)))
             || (f.pc == CloseTest && r.closing) || (f.pc == ConnTest && r.closing)
    ensures s'.handles == s.handles && t < |s'.threads| && s'.threads[t].owned == s.threads[t].owned
    ensures s'.threads[t].stack
            == [Top(s, t).(pc := if Top(s, t).freeing then ReleaseRefs else Finish)] + s.threads[t].stack[1..]
  {
    TopFrameOk(s, t);
    assert s.handles[Top(s, t).h := s.handles[Top(s, t).h]] == s.handles;
  }

  // ---- the close of a LOB ----

  // The close of a LOB by a user, from the checks to the end.
  predicate ClosingLob(s: State, t: nat, h: Id) {
    && InCall(s, t) && |s.threads[t].stack| == 1 && h < |s.handles| && s.handles[h].kind == Lob
    && var f := Bottom(s, t);
       && f.h == h && !f.freeing && f.keep
       && (f.pc.CheckOpen? || f.pc.CloseTest? || f.pc.CloseFree? || f.pc.LobUnlist? || f.pc.LobClear?
           || ((f.pc.LobReset? || f.pc.Finish?) && !s.handles[h].pointer))
  }

  lemma LobStep(s: State, t: nat, choice: Choice, s': State, h: Id)
    requires Runs(s, t, choice, s') && ClosingLob(s, t, h)
    requires Top(s, t).pc.CheckOpen? ==> choice.ok && s.handles[h].pointer
    requires Top(s, t).pc.CloseTest? ==> !s.handles[h].closing
    ensures h < |s'.handles| && t < |s'.threads|
    ensures if Top(s, t).pc.Finish? then s'.threads[t].stack == [] && !s'.handles[h].pointer else ClosingLob(s', t, h)
  {
  }

  // The close of a LOB by a user that passes its check, and does not find the closing flag set, frees its locator,
  // once, whether or not OCI reports errors.
  lemma {:induction false} CloseOfLob(ss: seq<State>, ls: seq<Label>, i: nat, j: nat, t: nat, h: Id)
    requires IsRun(ss, ls) && i <= j <= |ls| && ClosingLob(ss[i], t, h) && Idle(ss[j], t)
    requires forall k :: i <= k < j && IsStepOf(ls[k], t) && InCall(ss[k], t) && h < |ss[k].handles| ==>
                 && (Top(ss[k], t).pc.CheckOpen? ==> ls[k].choice.ok && ss[k].handles[h].pointer)
                 && (Top(ss[k], t).pc.CloseTest? ==> !ss[k].handles[h].closing)
    ensures h < |ss[j].handles| && !ss[j].handles[h].pointer && ss[j].handles[h].resourceFrees == 1
    decreases j - i
  {
    var s, l := ss[i], ls[i];
    RunIsGood(ss, ls, i);
    assert Enabled(s, l) && ss[i + 1] == Next(s, l);
    KindStays(s, l, h);
    if IsStepOf(l, t) {
      LobStep(s, t, l.choice, ss[i + 1], h);
    } else {
      OtherStep(s, l, t);
      if !s.handles[h].pointer {
        NextUnpointed(s, l, h);
      }
    }
    if Idle(ss[i + 1], t) {
      GoneStays(ss, ls, i + 1, j, h);
      RunIsGood(ss, ls, j);
      GoneIsFreed(ss[j], h);
    } else {
      CloseOfLob(ss, ls, i + 1, j, t, h);
    }
  }
}
