/** Every step of every thread keeps the invariant: the steps that pass references on, and the
    calls that users make. */
module LifetimeKeeps {
  import opened Wrappers
  import opened Lifetimes
  import opened LifetimeCounts
  import opened LifetimeInvariant
  import opened LifetimeSteps

  // ---- what is known about the pointers in the lists ----

  // A LOB or object whose creator has put it into its list.
  predicate Known(s: State, p: Id) {
    && p < |s.handles| && (s.handles[p].kind == Lob || s.handles[p].kind == Object)
    && NumbersAt(s.threads, p).enlisting == 0
  }

  predicate EntriesKnown(s: State, l: seq<Option<Id>>) {
    forall i :: 0 <= i < |l| && l[i].Some? ==> Known(s, l[i].value)
  }

  predicate ListsKnown(s: State) {
    forall c :: 0 <= c < |s.handles| ==> EntriesKnown(s, s.handles[c].objects) && EntriesKnown(s, s.handles[c].lobs)
  }

  predicate ReadsKnown(s: State) {
    forall t, k :: 0 <= t < |s.threads| && 0 <= k < |s.threads[t].stack| && s.threads[t].stack[k].pc.WalkCheck? ==>
        Known(s, s.threads[t].stack[k].pc.entry)
  }

  ghost predicate FullInv(s: State) {
    Inv(s) && ListsKnown(s) && ReadsKnown(s)
  }

  // ---- passing references on ----

  lemma SameNumbers(ts: seq<Thread>, t: nat, th: Thread, h: Id)
    requires t < |ts|
    requires ThreadNumbers(th, h) == ThreadNumbers(ts[t], h)
    ensures NumbersAt(ts[t := th], h) == NumbersAt(ts, h)
  {
    ThreadReplaced(ts, t, th, h);
  }

  function ThreadNumbers(th: Thread, h: Id): Numbers {
    Numbers(InThread(th, Tokens, h), InThread(th, Jobs, h), InThread(th, Late, h), InThread(th, Critical, h),
            InThread(th, Freed, h), InThread(th, Resetting, h), InThread(th, Enlisting, h), InThread(th, Busy, h))
  }

  function OtherNumbers(ts: seq<Thread>, t: nat, h: Id): Numbers
    requires t < |ts|
  {
    Numbers(Others(ts, t, Tokens, h), Others(ts, t, Jobs, h), Others(ts, t, Late, h), Others(ts, t, Critical, h),
            Others(ts, t, Freed, h), Others(ts, t, Resetting, h), Others(ts, t, Enlisting, h), Others(ts, t, Busy, h))
  }

  lemma ThreadReplaced(ts: seq<Thread>, t: nat, th: Thread, h: Id)
    requires t < |ts|
    ensures NumbersAt(ts, h) == Plus(OtherNumbers(ts, t, h), ThreadNumbers(ts[t], h))
    ensures NumbersAt(ts[t := th], h) == Plus(OtherNumbers(ts, t, h), ThreadNumbers(th, h))
  {
    TallyUpdate(ts, t, th, Tokens, h);
    TallyUpdate(ts, t, th, Jobs, h);
    TallyUpdate(ts, t, th, Late, h);
    TallyUpdate(ts, t, th, Critical, h);
    TallyUpdate(ts, t, th, Freed, h);
    TallyUpdate(ts, t, th, Resetting, h);
    TallyUpdate(ts, t, th, Enlisting, h);
    TallyUpdate(ts, t, th, Busy, h);
  }

  // A thread changes, and no number does.
  lemma ThreadChanged(s: State, t: nat, th: Thread)
    requires Inv(s) && t < |s.threads|
    requires forall h :: NumbersAt(s.threads[t := th], h) == NumbersAt(s.threads, h)
    requires StackOk(s.handles, th.stack)
    ensures Inv(State(s.handles, s.threads[t := th]))
  {
    var s' := State(s.handles, s.threads[t := th]);
    forall h | 0 <= h < |s.handles|
      ensures HandleAt(s', h)
    {
      assert HandleAt(s, h);
    }
    forall h | h >= |s.handles|
      ensures Fresh(s', h)
    {
      assert Fresh(s, h);
    }
  }

  // The call is over and the reference goes back to the caller.
  lemma ReturnReference(s: State, t: nat)
    requires Inv(s) && AtTop(s, t) && Top(s, t).pc == Finish
    ensures var th := s.threads[t];
            var th' := Thread(th.owned + multiset{Top(s, t).h}, th.stack[1..]);
            && (forall h :: NumbersAt(s.threads[t := th'], h) == NumbersAt(s.threads, h))
            && Inv(State(s.handles, s.threads[t := th']))
  {
    var f, th := Top(s, t), s.threads[t];
    var th' := Thread(th.owned + multiset{f.h}, th.stack[1..]);
    assert !f.freeing by {
      TopOk(s, t);
    }
    forall h: Id
      ensures NumbersAt(s.threads[t := th'], h) == NumbersAt(s.threads, h)
    {
      ReturnedNumbers(th, f, h);
      SameNumbers(s.threads, t, th', h);
    }
    ThreadChanged(s, t, th');
  }

  lemma ReturnedNumbers(th: Thread, f: Frame, h: Id)
    requires th.stack != [] && th.stack[0] == f && f.pc == Finish && !f.freeing
    ensures ThreadNumbers(Thread(th.owned + multiset{f.h}, th.stack[1..]), h) == ThreadNumbers(th, h)
  {
  }

  // A step that changes the records of at most two handles, and puts frames on those on top.
  lemma GeneralStep(s: State, t: nat, hs': seq<Handle>, top: seq<Frame>, a: Id, na: Numbers, b: Id, nb: Numbers, s': State)
    requires Inv(s) && AtTop(s, t) && Top(s, t).h == a && s' == SetTop(s, t, hs', top)
    requires a < |s.handles| && b < |s.handles| && Extends(s.handles, hs') && |hs'| == |s.handles|
    requires forall h :: 0 <= h < |hs'| ==> ShapeOk(hs', h)
    requires forall h :: 0 <= h < |hs'| && h != a && h != b ==> hs'[h] == s.handles[h]
    requires forall h :: h != a && h != b ==> RefsTo(hs', h) == RefsTo(s.handles, h)
    requires StackOk(hs', top) && forall k :: 0 <= k < |top| ==> top[k].h == a || top[k].h == b
    requires na == Plus(AroundNumbers(s.threads, t, a), StackNumbers(top, a))
    requires nb == Plus(AroundNumbers(s.threads, t, b), StackNumbers(top, b))
    ensures HandleOk(hs'[a], na, RefsTo(hs', a)) && HandleOk(hs'[b], nb, RefsTo(hs', b)) ==> Inv(s')
  {
    FramesKept(s, t, hs', top);
    RestKept(s, t, hs', top, a, b, s');
    NumbersAfter(s, t, hs', top, a, na);
    NumbersAfter(s, t, hs', top, b, nb);
    TwoMore(s', a, na, b, nb);
  }

  // The handles other than the two.
  lemma RestKept(s: State, t: nat, hs': seq<Handle>, top: seq<Frame>, a: Id, b: Id, s': State)
    requires Inv(s) && AtTop(s, t) && Top(s, t).h == a && s' == SetTop(s, t, hs', top)
    requires a < |hs'| && b < |hs'| && |hs'| == |s.handles|
    requires forall h :: 0 <= h < |hs'| && h != a && h != b ==> hs'[h] == s.handles[h]
    requires forall h :: h != a && h != b ==> RefsTo(hs', h) == RefsTo(s.handles, h)
    requires forall k :: 0 <= k < |top| ==> top[k].h == a || top[k].h == b
    ensures forall h :: 0 <= h < |hs'| && h != a && h != b ==> HandleAt(s', h)
    ensures forall h :: h >= |hs'| ==> Fresh(s', h)
  {
    OthersUntouched(s, t, hs', top, {a, b}, s');
  }

  lemma NumbersAfter(s: State, t: nat, hs': seq<Handle>, top: seq<Frame>, h: Id, n: Numbers)
    requires AtTop(s, t) && n == Plus(AroundNumbers(s.threads, t, h), StackNumbers(top, h))
    ensures NumbersAt(SetTop(s, t, hs', top).threads, h) == n
  {
    BeforeIsAroundPlusTop(s, t, hs', top, h);
  }

  lemma TwoMore(s: State, a: Id, na: Numbers, b: Id, nb: Numbers)
    requires FramesOk(s) && a < |s.handles| && b < |s.handles|
    requires NumbersAt(s.threads, a) == na && NumbersAt(s.threads, b) == nb
    requires forall h :: 0 <= h < |s.handles| ==> ShapeOk(s.handles, h)
    requires forall h :: 0 <= h < |s.handles| && h != a && h != b ==> HandleAt(s, h)
    requires forall h :: h >= |s.handles| ==> Fresh(s, h)
    ensures HandleOk(s.handles[a], na, RefsTo(s.handles, a)) && HandleOk(s.handles[b], nb, RefsTo(s.handles, b)) ==> Inv(s)
  {
  }

  // A reference is dropped: the count follows, and the last one starts the free procedure.
  lemma DropOk(r: Handle, n: Numbers, refsTo: int, f: Frame)
    requires HandleOk(r, Plus(n, FrameNumbers(f)), refsTo) && Coherent(n) && refsTo >= 0
    requires f.pc == Finish && !f.freeing && r.count - 1 != 0
    ensures HandleOk(r.(count := r.count - 1), n, refsTo)
  {
  }

  lemma LastDropOk(r: Handle, n: Numbers, refsTo: int, f: Frame, g: Frame)
    requires HandleOk(r, Plus(n, FrameNumbers(f)), refsTo) && Coherent(n) && refsTo >= 0
    requires f.pc == Finish && !f.freeing && r.count - 1 == 0 && g.freeing && g.pc == FreeStart
    ensures HandleOk(r.(count := 0, checkInt := false, freeCalls := r.freeCalls + 1), Plus(n, FrameNumbers(g)), refsTo)
  {
  }

  lemma DropReference(s: State, t: nat, r': Handle, hs': seq<Handle>, s': State)
    requires Inv(s) && AtTop(s, t) && Top(s, t).pc == Finish && Top(s, t).h < |s.handles|
    requires var r := s.handles[Top(s, t).h]; r.count - 1 != 0 && r' == r.(count := r.count - 1)
    requires hs' == s.handles[Top(s, t).h := r'] && s' == SetTop(s, t, hs', [])
    ensures Inv(s')
  {
    var f := Top(s, t);
    var n := AroundNumbers(s.threads, t, f.h);
    DropTop(s, t, s.handles[f.h], n, RefsTo(s.handles, f.h), r');
    RecordKept(s.handles, f.h, r', hs');
    Single(f, f.h);
    PlusNone(n);
    GeneralStep(s, t, hs', [], f.h, n, f.h, n, s');
  }

  lemma DropTop(s: State, t: nat, r: Handle, n: Numbers, refsTo: nat, r': Handle)
    requires Inv(s) && AtTop(s, t) && Top(s, t).pc == Finish && Top(s, t).h < |s.handles|
    requires r == s.handles[Top(s, t).h] && n == AroundNumbers(s.threads, t, Top(s, t).h)
    requires refsTo == RefsTo(s.handles, Top(s, t).h) && r.count - 1 != 0 && r' == r.(count := r.count - 1)
    ensures HandleOk(r', n, refsTo)
  {
    TopOk(s, t);
    DropOk(r, n, refsTo, Top(s, t));
  }

  lemma DropLastReference(s: State, t: nat, r': Handle, g: Frame)
    requires Inv(s) && AtTop(s, t) && Top(s, t).pc == Finish && Top(s, t).h < |s.handles|
    requires s.handles[Top(s, t).h].count - 1 == 0
    requires g.h == Top(s, t).h && g.freeing && g.pc == FreeStart
    requires var r := s.handles[g.h]; r' == r.(count := 0, checkInt := false, freeCalls := r.freeCalls + 1)
    ensures Inv(SetTop(s, t, s.handles[g.h := r'], [g]))
  {
    TopOk(s, t);
    LastDropOk(s.handles[g.h], AroundNumbers(s.threads, t, g.h), RefsTo(s.handles, g.h), Top(s, t), g);
    OneHandle(s, t, r', g);
  }

  // The memory of a handle is given back.
  lemma DeallocateStep(s: State, t: nat, r': Handle, hs': seq<Handle>, s': State)
    requires Inv(s) && AtTop(s, t) && Top(s, t).pc == Deallocate && Top(s, t).h < |s.handles|
    requires r' == s.handles[Top(s, t).h].(deallocated := true)
    requires hs' == s.handles[Top(s, t).h := r'] && s' == SetTop(s, t, hs', [])
    ensures Inv(s')
  {
    var f := Top(s, t);
    var n := AroundNumbers(s.threads, t, f.h);
    TopOk(s, t);
    RecordKept(s.handles, f.h, r', hs');
    EmptyOnDeallocate(s.handles, f);
    DeallocateOk(s.handles[f.h], n, RefsTo(s.handles, f.h), f);
    Single(f, f.h);
    PlusNone(n);
    GeneralStep(s, t, hs', [], f.h, n, f.h, n, s');
  }

  lemma EmptyOnDeallocate(hs: seq<Handle>, f: Frame)
    requires FrameOk(hs, f) && f.pc == Deallocate
    ensures f.freeing && hs[f.h].refs == []
  {
  }

  lemma DeallocateOk(r: Handle, n: Numbers, refsTo: int, f: Frame)
    requires HandleOk(r, Plus(n, FrameNumbers(f)), refsTo) && Coherent(n) && refsTo >= 0
    requires f.pc == Deallocate && f.freeing && r.refs == []
    ensures HandleOk(r.(deallocated := true), n, refsTo)
  {
  }

  // The numbers when the top frame f is replaced by g, on another handle, and f'.
  lemma TwoOnTop(s: State, t: nat, g: Frame, f': Frame)
    requires AtTop(s, t) && f'.h == Top(s, t).h && g.h != f'.h
    ensures StackNumbers([g, f'], f'.h) == FrameNumbers(f')
    ensures Plus(AroundNumbers(s.threads, t, g.h), StackNumbers([g, f'], g.h))
            == Plus(NumbersAt(s.threads, g.h), FrameNumbers(g))
  {
    BeforeIsAroundPlusTop(s, t, s.handles, [], g.h);
    assert [g, f'] == [g] + [f'];
    StackNumbersCons(g, [f'], f'.h);
    StackNumbersCons(g, [f'], g.h);
    Single(f', f'.h);
    Single(f', g.h);
    PlusNone(FrameNumbers(g));
  }

  lemma ReferenceMoved(r: Handle, n: Numbers, refsTo: int, g: Frame)
    requires HandleOk(r, n, refsTo) && g.pc == Finish && !g.freeing
    ensures HandleOk(r, Plus(n, FrameNumbers(g)), refsTo - 1)
  {
  }

  lemma ReferenceGiven(r: Handle, n: Numbers, refsTo: int, f: Frame)
    requires HandleOk(r, Plus(n, FrameNumbers(f)), refsTo) && Coherent(n) && refsTo >= 0
    requires f.pc == ReleaseRefs && f.freeing && r.refs != []
    ensures HandleOk(r.(refs := r.refs[1..]), Plus(n, FrameNumbers(f)), refsTo)
  {
  }

  lemma RefsShrink(hs: seq<Handle>, i: Id, p: Id, hs': seq<Handle>)
    requires i < |hs| && hs[i].refs != [] && hs[i].refs[0] == p && hs' == hs[i := hs[i].(refs := hs[i].refs[1..])]
    ensures forall h :: RefsTo(hs', h) == RefsTo(hs, h) - if h == p then 1 else 0
  {
    var r := hs[i];
    forall h: Id
      ensures RefsTo(hs', h) == RefsTo(hs, h) - if h == p then 1 else 0
    {
      RefsToUpdate(hs, i, r.(refs := r.refs[1..]), h);
      assert r.refs == [p] + r.refs[1..];
    }
  }

  lemma FreeingFrameOk(s: State, t: nat)
    requires Inv(s) && AtTop(s, t) && Top(s, t).pc == ReleaseRefs && Top(s, t).h < |s.handles|
    requires s.handles[Top(s, t).h].refs != []
    ensures Top(s, t).freeing && s.handles[Top(s, t).h].refs[0] < Top(s, t).h
  {
    TopFrameOk(s, t);
    FirstRefBack(s, Top(s, t).h);
  }

  lemma FirstRefBack(s: State, h: Id)
    requires Inv(s) && h < |s.handles| && s.handles[h].refs != []
    ensures s.handles[h].refs[0] < h
  {
    assert ShapeOk(s.handles, h);
  }

  lemma ShapesAfterRelease(hs: seq<Handle>, i: Id, r': Handle, hs': seq<Handle>)
    requires i < |hs| && hs[i].refs != [] && r' == hs[i].(refs := hs[i].refs[1..]) && hs' == hs[i := r']
    requires forall h :: 0 <= h < |hs| ==> ShapeOk(hs, h)
    ensures Extends(hs, hs') && forall h :: 0 <= h < |hs'| ==> ShapeOk(hs', h)
  {
    forall h | 0 <= h < |hs'|
      ensures ShapeOk(hs', h)
    {
      if h != i {
        ShapeKept(hs, hs', h);
      } else {
        ShapeShrinks(hs, hs', h);
      }
    }
  }

  lemma Giver(s: State, t: nat, r': Handle, na: Numbers)
    requires Inv(s) && AtTop(s, t) && Top(s, t).pc == ReleaseRefs && Top(s, t).h < |s.handles|
    requires s.handles[Top(s, t).h].refs != [] && Top(s, t).freeing
    requires r' == s.handles[Top(s, t).h].(refs := s.handles[Top(s, t).h].refs[1..])
    requires na == Plus(AroundNumbers(s.threads, t, Top(s, t).h), FrameNumbers(Top(s, t)))
    ensures FrameOk(s.handles, Top(s, t)) && HandleOk(r', na, RefsTo(s.handles, Top(s, t).h))
  {
    var f := Top(s, t);
    TopOk(s, t);
    ReferenceGiven(s.handles[f.h], AroundNumbers(s.threads, t, f.h), RefsTo(s.handles, f.h), f);
  }

  lemma Given(s: State, g: Frame, nb: Numbers)
    requires Inv(s) && g.h < |s.handles| && !g.freeing && g.pc == Finish
    requires nb == Plus(NumbersAt(s.threads, g.h), FrameNumbers(g))
    ensures FrameOk(s.handles, g) && HandleOk(s.handles[g.h], nb, RefsTo(s.handles, g.h) - 1)
  {
    HandleNow(s, g.h, s.handles[g.h], NumbersAt(s.threads, g.h), RefsTo(s.handles, g.h));
    ReferenceMoved(s.handles[g.h], NumbersAt(s.threads, g.h), RefsTo(s.handles, g.h), g);
  }

  lemma HandleNow(s: State, h: Id, r: Handle, n: Numbers, refsTo: nat)
    requires Inv(s) && h < |s.handles| && r == s.handles[h] && n == NumbersAt(s.threads, h)
    requires refsTo == RefsTo(s.handles, h)
    ensures HandleOk(r, n, refsTo)
  {
    assert HandleAt(s, h);
  }

  // The handle being freed gives back its next reference, which becomes one of the thread.
  lemma ReleaseNext(s: State, t: nat, r': Handle, g: Frame, hs': seq<Handle>, s': State)
    requires Inv(s) && AtTop(s, t) && Top(s, t).pc == ReleaseRefs && Top(s, t).h < |s.handles|
    requires s.handles[Top(s, t).h].refs != []
    requires r' == s.handles[Top(s, t).h].(refs := s.handles[Top(s, t).h].refs[1..])
    requires g.h == s.handles[Top(s, t).h].refs[0] && !g.freeing && g.pc == Finish
    requires hs' == s.handles[Top(s, t).h := r'] && s' == SetTop(s, t, hs', [g, Top(s, t)])
    ensures Inv(s')
  {
    var f := Top(s, t);
    var na, nb := Plus(AroundNumbers(s.threads, t, f.h), FrameNumbers(f)), Plus(NumbersAt(s.threads, g.h), FrameNumbers(g));
    var top := [g, f];
    FreeingFrameOk(s, t);
    ShapesAfterRelease(s.handles, f.h, r', hs');
    RefsShrink(s.handles, f.h, g.h, hs');
    TwoOnTop(s, t, g, f);
    Giver(s, t, r', na);
    Given(s, g, nb);
    TwoFramesOk(s.handles, hs', g, f, top);
    assert hs'[f.h] == r' && hs'[g.h] == s.handles[g.h];
    GeneralStep(s, t, hs', top, f.h, na, g.h, nb, s');
  }

  lemma ShapeShrinks(hs: seq<Handle>, hs': seq<Handle>, h: Id)
    requires h < |hs| && Extends(hs, hs') && ShapeOk(hs, h) && hs[h].refs != [] && hs'[h].refs == hs[h].refs[1..]
    ensures ShapeOk(hs', h)
  {
  }

  lemma ReferenceTaken(r: Handle, n: Numbers, refsTo: int, g: Frame)
    requires HandleOk(r, n, refsTo) && r.checkInt && n.enlisting == 0 && g.pc == CloseTest && !g.freeing
    ensures HandleOk(r.(count := r.count + 1), Plus(n, FrameNumbers(g)), refsTo)
  {
  }

  lemma WalkOn(r: Handle, n: Numbers, refsTo: int, f: Frame, f': Frame)
    requires HandleOk(r, Plus(n, FrameNumbers(f)), refsTo) && f.pc.WalkCheck? && f'.pc.Walk? && f'.freeing == f.freeing
    ensures HandleOk(r, Plus(n, FrameNumbers(f')), refsTo)
  {
  }

  lemma WalkFrames(hs: seq<Handle>, f: Frame, f': Frame, g: Frame)
    requires FrameOk(hs, f) && f.pc.WalkCheck? && f'.pc.Walk? && f'.h == f.h && g.h == f.pc.entry && g.pc == CloseTest
    ensures FrameOk(hs, f') && FrameOk(hs, g) && f.h != g.h
  {
  }

  lemma Walker(s: State, t: nat, g: Frame, f': Frame, na: Numbers)
    requires Inv(s) && AtTop(s, t) && Top(s, t).pc.WalkCheck? && g.h == Top(s, t).pc.entry && g.pc == CloseTest
    requires f'.h == Top(s, t).h && f'.freeing == Top(s, t).freeing && f'.pc.Walk?
    requires na == Plus(AroundNumbers(s.threads, t, f'.h), FrameNumbers(f'))
    ensures f'.h != g.h && FrameOk(s.handles, f') && FrameOk(s.handles, g)
    ensures HandleOk(s.handles[f'.h], na, RefsTo(s.handles, f'.h))
  {
    var f := Top(s, t);
    TopOk(s, t);
    WalkFrames(s.handles, f, f', g);
    WalkOn(s.handles[f.h], AroundNumbers(s.threads, t, f.h), RefsTo(s.handles, f.h), f, f');
  }

  lemma Taken(s: State, g: Frame, r': Handle, nb: Numbers)
    requires Inv(s) && Known(s, g.h) && !g.freeing && g.pc == CloseTest && s.handles[g.h].checkInt
    requires r' == s.handles[g.h].(count := s.handles[g.h].count + 1)
    requires nb == Plus(NumbersAt(s.threads, g.h), FrameNumbers(g))
    ensures HandleOk(r', nb, RefsTo(s.handles, g.h))
  {
    assert HandleAt(s, g.h);
    ReferenceTaken(s.handles[g.h], NumbersAt(s.threads, g.h), RefsTo(s.handles, g.h), g);
  }

  // The close of a connection takes a reference to a list entry whose check integer is in place.
  lemma TakeReference(s: State, t: nat, g: Frame, f': Frame, r': Handle, hs': seq<Handle>, s': State)
    requires Inv(s) && AtTop(s, t) && Top(s, t).pc.WalkCheck? && Known(s, Top(s, t).pc.entry)
    requires g.h == Top(s, t).pc.entry && !g.freeing && g.pc == CloseTest && s.handles[g.h].checkInt
    requires f'.h == Top(s, t).h && f'.freeing == Top(s, t).freeing && f'.pc.Walk?
    requires r' == s.handles[g.h].(count := s.handles[g.h].count + 1)
    requires hs' == s.handles[g.h := r'] && s' == SetTop(s, t, hs', [g, f'])
    ensures Inv(s')
  {
    var f := Top(s, t);
    var na, nb := Plus(AroundNumbers(s.threads, t, f.h), FrameNumbers(f')), Plus(NumbersAt(s.threads, g.h), FrameNumbers(g));
    var top := [g, f'];
    Walker(s, t, g, f', na);
    Taken(s, g, r', nb);
    TwoOnTop(s, t, g, f');
    RecordKept(s.handles, g.h, r', hs');
    TwoFramesOk(s.handles, hs', g, f', top);
    assert hs'[f.h] == s.handles[f.h] && hs'[g.h] == r';
    GeneralStep(s, t, hs', top, f.h, na, g.h, nb, s');
  }

  lemma TwoFramesOk(hs: seq<Handle>, hs': seq<Handle>, g: Frame, f: Frame, top: seq<Frame>)
    requires Extends(hs, hs') && FrameOk(hs, g) && FrameOk(hs, f) && top == [g, f]
    ensures StackOk(hs', top) && forall k :: 0 <= k < |top| ==> top[k].h == f.h || top[k].h == g.h
  {
    FrameKept(hs, hs', g);
    FrameKept(hs, hs', f);
    assert top[1..] == [f] && [f][1..] == [];
  }
}
