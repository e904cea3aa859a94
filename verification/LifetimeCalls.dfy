/** Every step of every thread keeps the invariant: the calls users make, and the handle lists. */
module LifetimeCalls {
  import opened Lifetimes
  import opened LifetimeCounts
  import opened LifetimeInvariant
  import opened LifetimeKeeps

  // An owned reference becomes the one a call holds.
  lemma CallBegins(s: State, t: nat, g: Frame, th': Thread)
    requires Inv(s) && Idle(s, t) && Owns(s, t, g.h) && !g.freeing && (g.pc == Finish || g.pc == CheckOpen)
    requires FrameOk(s.handles, g)
    requires th' == Thread(s.threads[t].owned - multiset{g.h}, [g])
    ensures Inv(State(s.handles, s.threads[t := th']))
    ensures forall h :: NumbersAt(s.threads[t := th'], h) == NumbersAt(s.threads, h)
  {
    forall h: Id
      ensures NumbersAt(s.threads[t := th'], h) == NumbersAt(s.threads, h)
    {
      BegunNumbers(s.threads[t], g, th', h);
      SameNumbers(s.threads, t, th', h);
    }
    assert [g][1..] == [];
    ThreadChanged(s, t, th');
  }

  lemma BegunNumbers(th: Thread, g: Frame, th': Thread, h: Id)
    requires th.stack == [] && th.owned[g.h] > 0 && !g.freeing && (g.pc == Finish || g.pc == CheckOpen)
    requires th' == Thread(th.owned - multiset{g.h}, [g])
    ensures ThreadNumbers(th', h) == ThreadNumbers(th, h)
  {
    assert [g][1..] == [];
  }

  // Whoever owns a reference got it after the handle was put into its list.
  lemma OwnedIsListed(s: State, t: nat, h: Id)
    requires Inv(s) && Owns(s, t, h)
    ensures NumbersAt(s.threads, h).enlisting == 0 && s.handles[h].count >= 1
  {
    var th := s.threads[t];
    var th' := th.(owned := th.owned - multiset{h});
    ThreadReplaced(s.threads, t, th', h);
    TallyCoherent(s.threads[t := th'], h);
    assert HandleAt(s, h);
  }

  lemma ShareOk(r: Handle, n: Numbers, refsTo: int)
    requires HandleOk(r, n, refsTo) && n.enlisting == 0 && r.count >= 1
    ensures HandleOk(r.(count := r.count + 1), n.(tokens := n.tokens + 1), refsTo)
  {
  }

  lemma SharedNumbers(ts: seq<Thread>, t: nat, th': Thread, h: Id, k: Id)
    requires t < |ts| && th' == ts[t].(owned := ts[t].owned + multiset{h})
    ensures NumbersAt(ts[t := th'], k)
            == if k == h then NumbersAt(ts, k).(tokens := NumbersAt(ts, k).tokens + 1) else NumbersAt(ts, k)
  {
    ThreadReplaced(ts, t, th', k);
  }

  // Adding a reference for some thread.
  lemma ShareKeeps(s: State, h: Id, to: nat, r': Handle, th': Thread, s': State)
    requires Inv(s) && h < |s.handles| && to < |s.threads|
    requires NumbersAt(s.threads, h).enlisting == 0 && s.handles[h].count >= 1
    requires r' == s.handles[h].(count := s.handles[h].count + 1)
    requires th' == s.threads[to].(owned := s.threads[to].owned + multiset{h})
    requires s' == State(s.handles[h := r'], s.threads[to := th'])
    ensures Inv(s')
    ensures forall k :: NumbersAt(s'.threads, k).enlisting == NumbersAt(s.threads, k).enlisting
  {
    RecordKept(s.handles, h, r', s'.handles);
    forall k: Id
      ensures NumbersAt(s'.threads, k)
              == if k == h then NumbersAt(s.threads, k).(tokens := NumbersAt(s.threads, k).tokens + 1)
                 else NumbersAt(s.threads, k)
    {
      SharedNumbers(s.threads, to, th', h, k);
    }
    assert HandleAt(s', h) by {
      assert HandleAt(s, h);
      ShareOk(s.handles[h], NumbersAt(s.threads, h), RefsTo(s.handles, h));
    }
    forall k | 0 <= k < |s'.handles| && k != h
      ensures HandleAt(s', k)
    {
      assert HandleAt(s, k);
    }
    forall k | k >= |s'.handles|
      ensures Fresh(s', k)
    {
      assert Fresh(s, k);
    }
    ShareFrames(s, s');
  }

  // Frames stay right when stacks stay as they are.
  lemma ShareFrames(s: State, s': State)
    requires FramesOk(s) && Extends(s.handles, s'.handles) && |s'.threads| == |s.threads|
    requires forall t :: 0 <= t < |s.threads| ==> s'.threads[t].stack == s.threads[t].stack
    ensures FramesOk(s')
  {
    forall t | 0 <= t < |s'.threads|
      ensures StackOk(s'.handles, s'.threads[t].stack)
    {
      StackKept(s.handles, s'.handles, s.threads[t].stack);
    }
  }

  // ---- creating a handle ----

  lemma {:induction false} BumpCount(hs: seq<Handle>, ps: seq<Id>, h: Id)
    requires h < |hs| && forall i :: 0 <= i < |ps| ==> ps[i] < |hs|
    ensures Bump(hs, ps)[h] == hs[h].(count := hs[h].count + multiset(ps)[h])
    decreases |ps|
  {
    if ps != [] {
      var hs1 := hs[ps[0] := hs[ps[0]].(count := hs[ps[0]].count + 1)];
      BumpCount(hs1, ps[1..], h);
      assert ps == [ps[0]] + ps[1..];
    }
  }

  lemma BumpCounts(hs: seq<Handle>, ps: seq<Id>)
    requires forall i :: 0 <= i < |ps| ==> ps[i] < |hs|
    ensures forall h :: 0 <= h < |hs| ==> Bump(hs, ps)[h] == hs[h].(count := hs[h].count + multiset(ps)[h])
  {
    forall h | 0 <= h < |hs|
      ensures Bump(hs, ps)[h] == hs[h].(count := hs[h].count + multiset(ps)[h])
    {
      BumpCount(hs, ps, h);
    }
  }

  lemma {:induction false} RefsToSame(hs: seq<Handle>, hs': seq<Handle>, h: Id)
    requires |hs| == |hs'| && forall i :: 0 <= i < |hs| ==> hs'[i].refs == hs[i].refs
    ensures RefsTo(hs', h) == RefsTo(hs, h)
  {
    if hs != [] {
      RefsToSame(hs[1..], hs'[1..], h);
    }
  }

  lemma ParentOk(r: Handle, n: Numbers, refsTo: int, more: nat)
    requires HandleOk(r, n, refsTo) && (more > 0 ==> n.enlisting == 0 && r.count >= 1)
    ensures HandleOk(r.(count := r.count + more), n, refsTo + more)
  {
  }

  lemma NewOk(kind: Kind, parents: seq<Id>, g: Frame)
    requires !g.freeing && (g.pc == Enlist || g.pc == Finish)
    ensures HandleOk(New(kind, parents), FrameNumbers(g), 0)
  {
  }

  lemma CreatedNumbers(ts: seq<Thread>, t: nat, g: Frame, th': Thread, h: Id)
    requires t < |ts| && ts[t].stack == [] && th' == ts[t].(stack := [g])
    ensures NumbersAt(ts[t := th'], h) == if h == g.h then Plus(NumbersAt(ts, h), FrameNumbers(g)) else NumbersAt(ts, h)
  {
    ThreadReplaced(ts, t, th', h);
    assert [g][1..] == [];
  }

  lemma NewShape(hs: seq<Handle>, hs': seq<Handle>, kind: Kind, parents: seq<Id>)
    requires ParentsOk(hs, kind, parents) && (forall i :: 0 <= i < |parents| ==> parents[i] < |hs|)
    requires |hs'| == |hs| + 1 && Extends(hs, hs') && hs'[|hs|] == New(kind, parents)
    ensures ShapeOk(hs', |hs|)
  {
    assert parents[|parents| - |parents|..] == parents;
  }

  lemma CreateHandles(s: State, parents: seq<Id>, r: Handle, hs1: seq<Handle>, hs': seq<Handle>, h: Id)
    requires Inv(s) && (forall i :: 0 <= i < |parents| ==> parents[i] < |s.handles|)
    requires forall i :: 0 <= i < |parents| ==>
                 NumbersAt(s.threads, parents[i]).enlisting == 0 && s.handles[parents[i]].count >= 1
    requires r.refs == parents && hs1 == Bump(s.handles, parents) && hs' == hs1 + [r]
    ensures RefsTo(hs', h) == RefsTo(s.handles, h) + multiset(parents)[h]
    ensures h < |s.handles| ==> HandleOk(hs'[h], NumbersAt(s.threads, h), RefsTo(hs', h))
  {
    BumpCounts(s.handles, parents);
    RefsToSame(s.handles, hs1, h);
    RefsToAppend(hs1, r, h);
    if h < |s.handles| {
      assert HandleAt(s, h);
      if multiset(parents)[h] > 0 {
        assert h in parents;
      }
      ParentOk(s.handles[h], NumbersAt(s.threads, h), RefsTo(s.handles, h), multiset(parents)[h]);
    }
  }

  // How a new handle comes into being: s' follows s.
  predicate Creation(s: State, t: nat, kind: Kind, parents: seq<Id>, g: Frame, s': State) {
    && Idle(s, t) && ParentsOk(s.handles, kind, parents)
    && (forall i :: 0 <= i < |parents| ==> Owns(s, t, parents[i]))
    && g.h == |s.handles| && !g.freeing
    && g.pc == (if kind == Lob || (kind == Object && |parents| == 1) then Enlist else Finish)
    && s' == State(Bump(s.handles, parents) + [New(kind, parents)], s.threads[t := s.threads[t].(stack := [g])])
  }

  lemma CreateOld(s: State, t: nat, kind: Kind, parents: seq<Id>, g: Frame, s': State, h: Id)
    requires Inv(s) && Creation(s, t, kind, parents, g, s')
    ensures h != g.h ==> NumbersAt(s'.threads, h) == NumbersAt(s.threads, h)
    ensures h == g.h ==> NumbersAt(s'.threads, h) == FrameNumbers(g)
    ensures RefsTo(s'.handles, h) == RefsTo(s.handles, h) + multiset(parents)[h]
    ensures h < |s.handles| ==> HandleAt(s', h)
    ensures h >= |s.handles| ==> RefsTo(s'.handles, h) == 0
  {
    forall i | 0 <= i < |parents|
      ensures NumbersAt(s.threads, parents[i]).enlisting == 0 && s.handles[parents[i]].count >= 1
    {
      OwnedIsListed(s, t, parents[i]);
    }
    CreatedNumbers(s.threads, t, g, s'.threads[t], h);
    CreateHandles(s, parents, New(kind, parents), Bump(s.handles, parents), s'.handles, h);
    if h >= |s.handles| {
      assert Fresh(s, h);
      assert multiset(parents)[h] == 0;
      PlusNone(FrameNumbers(g));
    }
  }

  lemma ExtendsByBump(hs: seq<Handle>, parents: seq<Id>, r: Handle, hs': seq<Handle>)
    requires forall i :: 0 <= i < |parents| ==> parents[i] < |hs|
    requires hs' == Bump(hs, parents) + [r]
    ensures Extends(hs, hs') && |hs'| == |hs| + 1 && hs'[|hs|] == r
    ensures forall h :: 0 <= h < |hs| ==> hs'[h].refs == hs[h].refs
  {
    BumpCounts(hs, parents);
  }

  lemma ShapesExtended(hs: seq<Handle>, hs': seq<Handle>)
    requires Extends(hs, hs') && forall h :: 0 <= h < |hs| ==> ShapeOk(hs, h)
    requires forall h :: 0 <= h < |hs| ==> hs'[h].refs == hs[h].refs
    ensures forall h :: 0 <= h < |hs| ==> ShapeOk(hs', h)
  {
    forall h | 0 <= h < |hs|
      ensures ShapeOk(hs', h)
    {
      ShapeKept(hs, hs', h);
    }
  }

  lemma CreateShapes(s: State, t: nat, kind: Kind, parents: seq<Id>, g: Frame, s': State)
    requires Inv(s) && Creation(s, t, kind, parents, g, s')
    ensures Extends(s.handles, s'.handles) && |s'.handles| == |s.handles| + 1 && s'.handles[g.h] == New(kind, parents)
    ensures forall h :: 0 <= h < |s'.handles| ==> ShapeOk(s'.handles, h)
  {
    ExtendsByBump(s.handles, parents, New(kind, parents), s'.handles);
    ShapesExtended(s.handles, s'.handles);
    NewShape(s.handles, s'.handles, kind, parents);
  }

  // The call that creates a handle starts with the frame g.
  lemma CreateFrames(s: State, t: nat, hs': seq<Handle>, g: Frame, s': State)
    requires FramesOk(s) && Idle(s, t) && Extends(s.handles, hs') && FrameOk(hs', g)
    requires s' == State(hs', s.threads[t := s.threads[t].(stack := [g])])
    ensures FramesOk(s')
  {
    forall u | 0 <= u < |s'.threads|
      ensures StackOk(hs', s'.threads[u].stack)
    {
      assert [g][1..] == [];
      StackKept(s.handles, hs', s.threads[u].stack);
    }
  }

  lemma NewFrameOk(hs': seq<Handle>, kind: Kind, parents: seq<Id>, g: Frame)
    requires g.h < |hs'| && hs'[g.h] == New(kind, parents) && !g.freeing
    requires g.pc == (if kind == Lob || (kind == Object && |parents| == 1) then Enlist else Finish)
    ensures FrameOk(hs', g)
  {
  }

  lemma CreateNew(s: State, t: nat, kind: Kind, parents: seq<Id>, g: Frame, s': State)
    requires Inv(s) && Creation(s, t, kind, parents, g, s')
    ensures g.h < |s'.handles| && HandleAt(s', g.h) && FramesOk(s')
  {
    CreateShapes(s, t, kind, parents, g, s');
    CreateOld(s, t, kind, parents, g, s', g.h);
    NewOk(kind, parents, g);
    NewFrameOk(s'.handles, kind, parents, g);
    CreateFrames(s, t, s'.handles, g, s');
  }

  lemma CreateFresh(s: State, t: nat, kind: Kind, parents: seq<Id>, g: Frame, s': State, h: Id)
    requires Inv(s) && Creation(s, t, kind, parents, g, s') && h > |s.handles|
    ensures Fresh(s', h)
  {
    assert Fresh(s, h);
    CreateOld(s, t, kind, parents, g, s', h);
  }

  lemma CreateAllOld(s: State, t: nat, kind: Kind, parents: seq<Id>, g: Frame, s': State)
    requires Inv(s) && Creation(s, t, kind, parents, g, s')
    ensures |s'.handles| > |s.handles|
    ensures forall h :: 0 <= h < |s.handles| ==> HandleAt(s', h) && NumbersAt(s'.threads, h) == NumbersAt(s.threads, h)
  {
    CreateShapes(s, t, kind, parents, g, s');
    forall h | 0 <= h < |s.handles|
      ensures HandleAt(s', h) && NumbersAt(s'.threads, h) == NumbersAt(s.threads, h)
    {
      CreateOld(s, t, kind, parents, g, s', h);
    }
  }

  lemma CreateKeeps(s: State, t: nat, kind: Kind, parents: seq<Id>, g: Frame, s': State)
    requires Inv(s) && Creation(s, t, kind, parents, g, s')
    ensures Inv(s')
    ensures forall k :: 0 <= k < |s.handles| ==> NumbersAt(s'.threads, k) == NumbersAt(s.threads, k)
  {
    CreateShapes(s, t, kind, parents, g, s');
    CreateNew(s, t, kind, parents, g, s');
    CreateAllOld(s, t, kind, parents, g, s');
    CreateAllFresh(s, t, kind, parents, g, s');
    OneMoreOk(s', |s.handles|);
  }

  lemma CreateAllFresh(s: State, t: nat, kind: Kind, parents: seq<Id>, g: Frame, s': State)
    requires Inv(s) && Creation(s, t, kind, parents, g, s')
    ensures forall h :: h > |s.handles| ==> Fresh(s', h)
  {
    forall h | h > |s.handles|
      ensures Fresh(s', h)
    {
      CreateFresh(s, t, kind, parents, g, s', h);
    }
  }

  lemma OneMoreOk(s: State, n: nat)
    requires FramesOk(s) && |s.handles| == n + 1 && HandleAt(s, n)
    requires forall h :: 0 <= h < |s.handles| ==> ShapeOk(s.handles, h)
    requires forall h :: 0 <= h < n ==> HandleAt(s, h)
    requires forall h :: h > n ==> Fresh(s, h)
    ensures Inv(s)
  {
  }
}
