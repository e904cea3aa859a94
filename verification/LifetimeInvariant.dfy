/** What every step keeps, handle by handle. */
module LifetimeInvariant {
  import opened Lifetimes
  import opened LifetimeCounts

  // ---- the invariant ----

  // References go to handles that were created earlier, and are given back from the front.
  predicate ShapeOk(hs: seq<Handle>, i: Id)
    requires i < |hs|
  {
    var r := hs[i];
    && ParentsOk(hs, r.kind, r.parents)
    && (forall k :: 0 <= k < |r.parents| ==> r.parents[k] < i)
    && |r.refs| <= |r.parents| && r.refs == r.parents[|r.parents| - |r.refs|..]
  }

  predicate FrameOk(hs: seq<Handle>, f: Frame) {
    && f.h < |hs|
    && var kind, pc := hs[f.h].kind, f.pc;
       || (pc.Finish? && !f.freeing)
       || ((pc.FreeStart? || pc.ReleaseRefs?) && f.freeing)
       || (pc.Deallocate? && f.freeing && hs[f.h].refs == [])
       || (pc.Enlist? && !f.freeing && (kind == Lob || (kind == Object && !Dependent(hs[f.h]))))
       || (pc.CheckOpen? && !f.freeing && (kind == Lob || kind == Connection))
       || ((pc.CloseTest? || pc.CloseFree?) && (kind == Lob || kind == Object))
       || ((pc.LobUnlist? || pc.LobClear? || pc.LobReset?) && kind == Lob)
       || (pc.ObjectUnlist? && kind == Object && !Dependent(hs[f.h]))
       || (pc.ObjectReset? && !f.freeing && kind == Object)
       || ((pc.ConnTest? || pc.ConnReset?) && !f.freeing && kind == Connection)
       || ((pc.Walk? || pc.EndSession?) && kind == Connection)
       || (pc.WalkCheck? && kind == Connection && pc.entry < |hs|
           && (hs[pc.entry].kind == Lob || hs[pc.entry].kind == Object))
  }

  predicate StackOk(hs: seq<Handle>, stack: seq<Frame>) {
    stack == [] || (FrameOk(hs, stack[0]) && StackOk(hs, stack[1..]))
  }

  predicate FramesOk(s: State) {
    forall t :: 0 <= t < |s.threads| ==> StackOk(s.handles, s.threads[t].stack)
  }

  // The numbers of frames on a handle, by place.
  datatype Numbers = Numbers(tokens: int, jobs: int, late: int, critical: int, freed: int, resetting: int,
                             enlisting: int, busy: int)

  const NONE := Numbers(0, 0, 0, 0, 0, 0, 0, 0)

  function NumbersAt(ts: seq<Thread>, h: Id): Numbers {
    Numbers(Tally(ts, Tokens, h), Tally(ts, Jobs, h), Tally(ts, Late, h), Tally(ts, Critical, h),
            Tally(ts, Freed, h), Tally(ts, Resetting, h), Tally(ts, Enlisting, h), Tally(ts, Busy, h))
  }

  function One(b: bool): int {
    if b then 1 else 0
  }

  function FrameNumbers(f: Frame): Numbers {
    Numbers(One(IsAt(f, Tokens)), One(IsAt(f, Jobs)), One(IsAt(f, Late)), One(IsAt(f, Critical)),
            One(IsAt(f, Freed)), One(IsAt(f, Resetting)), One(IsAt(f, Enlisting)), One(IsAt(f, Busy)))
  }

  function Plus(a: Numbers, b: Numbers): Numbers {
    Numbers(a.tokens + b.tokens, a.jobs + b.jobs, a.late + b.late, a.critical + b.critical, a.freed + b.freed,
            a.resetting + b.resetting, a.enlisting + b.enlisting, a.busy + b.busy)
  }

  // The relations between the numbers of any set of frames.
  predicate Coherent(n: Numbers) {
    && 0 <= n.tokens && 0 <= n.critical && 0 <= n.freed && 0 <= n.resetting && 0 <= n.enlisting && 0 <= n.busy
    && 0 <= n.late <= n.jobs
    && n.freed + n.resetting + n.busy <= n.critical
    && n.enlisting + n.critical + n.late <= n.tokens + n.jobs
    && n.enlisting <= n.tokens
  }

  // What the pointer to the OCI resource says, by kind of handle.
  predicate PointerOk(r: Handle, n: Numbers) {
    || (r.kind == Lob
        && (if n.freed >= 1 then r.pointer && !r.inOci else r.pointer == r.inOci)
        && (r.closing && n.critical == 0 ==> !r.pointer)
        && (n.resetting >= 1 || n.late >= 1 || r.deallocated ==> !r.pointer))
    || (r.kind == Connection
        && r.pointer == r.inOci
        && (!r.closing && r.count > 0 ==> r.pointer) && (n.busy >= 1 ==> r.pointer)
        && (!r.everClosed ==> !r.closing) && (n.late >= 1 || r.deallocated ==> !r.pointer)
        && (r.closing && n.critical == 0 ==> !r.pointer))
    || (r.kind == Object
        && r.pointer == r.inOci
        && (n.freed >= 1 ==> !r.pointer)
        && (Dependent(r) || !r.pointer || (!(r.closing && n.critical == 0) && n.late == 0 && !r.deallocated)))
    || (r.kind != Lob && r.kind != Connection && r.kind != Object && r.pointer == r.inOci)
  }

  // A handle, the numbers of frames on it, and the number of references other handles hold.
  predicate HandleOk(r: Handle, n: Numbers, refsTo: int) {
    // the count is the number of references, and the check integer tells whether there are any
    && r.count == n.tokens + refsTo
    && (r.checkInt <==> r.count > 0)
    // the free procedure is called when the count reaches zero, once, and runs until the end
    && n.jobs == (if r.count == 0 && !r.deallocated then 1 else 0)
    && (r.deallocated ==> r.count == 0 && r.refs == [])
    && r.freeCalls == (if r.count == 0 then 1 else 0)
    // one close at a time
    && n.critical <= 1 && (n.critical >= 1 ==> r.closing || n.jobs >= 1)
    // the OCI resource is either still there or was freed once
    && r.resourceFrees + One(r.inOci) == One(r.kind == Connection || r.kind == Lob || r.kind == Object)
    && PointerOk(r, n)
    // references are given back at the end of the free procedure only
    && (r.refs == r.parents || (r.count == 0 && (n.late >= 1 || r.deallocated)))
    // a handle that is not in a list yet is known to its creator only
    && (n.enlisting >= 1 ==> r.count == 1)
  }

  predicate HandleAt(s: State, h: Id)
    requires h < |s.handles|
  {
    HandleOk(s.handles[h], NumbersAt(s.threads, h), RefsTo(s.handles, h))
  }

  // Handles that do not exist yet are not mentioned anywhere.
  predicate Fresh(s: State, h: Id) {
    NumbersAt(s.threads, h) == NONE && RefsTo(s.handles, h) == 0
  }

  ghost predicate Inv(s: State) {
    && FramesOk(s)
    && (forall h :: 0 <= h < |s.handles| ==> ShapeOk(s.handles, h) && HandleAt(s, h))
    && (forall h :: h >= |s.handles| ==> Fresh(s, h))
  }

  // ---- how a step changes the numbers ----

  predicate Extends(hs: seq<Handle>, hs': seq<Handle>) {
    && |hs| <= |hs'|
    && (forall i :: 0 <= i < |hs| ==> hs'[i].kind == hs[i].kind && hs'[i].parents == hs[i].parents)
    && (forall i :: 0 <= i < |hs| && hs[i].refs == [] ==> hs'[i].refs == [])
  }

  lemma FrameKept(hs: seq<Handle>, hs': seq<Handle>, f: Frame)
    requires Extends(hs, hs') && FrameOk(hs, f)
    ensures FrameOk(hs', f)
  {
  }

  lemma {:induction false} StackKept(hs: seq<Handle>, hs': seq<Handle>, stack: seq<Frame>)
    requires Extends(hs, hs') && StackOk(hs, stack)
    ensures StackOk(hs', stack)
  {
    if stack != [] {
      FrameKept(hs, hs', stack[0]);
      StackKept(hs, hs', stack[1..]);
    }
  }

  lemma {:induction false} StackOkConcat(hs: seq<Handle>, top: seq<Frame>, rest: seq<Frame>)
    requires StackOk(hs, top) && StackOk(hs, rest)
    ensures StackOk(hs, top + rest)
  {
    if top == [] {
      assert top + rest == rest;
    } else {
      StackOkConcat(hs, top[1..], rest);
      assert (top + rest)[1..] == top[1..] + rest;
    }
  }

  lemma FramesKept(s: State, t: nat, hs': seq<Handle>, top: seq<Frame>)
    requires t < |s.threads| && s.threads[t].stack != [] && FramesOk(s) && Extends(s.handles, hs')
    requires StackOk(hs', top)
    ensures FramesOk(SetTop(s, t, hs', top))
  {
    var s' := SetTop(s, t, hs', top);
    forall u | 0 <= u < |s'.threads|
      ensures StackOk(hs', s'.threads[u].stack)
    {
      StackKept(s.handles, hs', s.threads[u].stack);
      if u == t {
        StackOkConcat(hs', top, s.threads[t].stack[1..]);
      }
    }
  }

  function AroundNumbers(ts: seq<Thread>, t: nat, h: Id): Numbers
    requires t < |ts| && ts[t].stack != []
  {
    Numbers(Around(ts, t, Tokens, h), Around(ts, t, Jobs, h), Around(ts, t, Late, h), Around(ts, t, Critical, h),
            Around(ts, t, Freed, h), Around(ts, t, Resetting, h), Around(ts, t, Enlisting, h), Around(ts, t, Busy, h))
  }

  function StackNumbers(top: seq<Frame>, h: Id): Numbers {
    Numbers(InStack(top, Tokens, h), InStack(top, Jobs, h), InStack(top, Late, h), InStack(top, Critical, h),
            InStack(top, Freed, h), InStack(top, Resetting, h), InStack(top, Enlisting, h), InStack(top, Busy, h))
  }

  lemma AroundIsCoherent(ts: seq<Thread>, t: nat, h: Id)
    requires t < |ts| && ts[t].stack != []
    ensures Coherent(AroundNumbers(ts, t, h))
  {
    AroundCoherent(ts, t, h);
  }

  lemma {:induction false} StackNumbersCons(g: Frame, rest: seq<Frame>, h: Id)
    ensures StackNumbers([g] + rest, h) == if g.h == h then Plus(FrameNumbers(g), StackNumbers(rest, h))
                                           else StackNumbers(rest, h)
    ensures StackNumbers([], h) == NONE
  {
    assert ([g] + rest)[1..] == rest;
  }

  lemma NumbersBefore(ts: seq<Thread>, t: nat, f: Frame, h: Id)
    requires t < |ts| && ts[t].stack != [] && f == ts[t].stack[0]
    ensures NumbersAt(ts, h)
            == if f.h == h then Plus(AroundNumbers(ts, t, h), FrameNumbers(f)) else AroundNumbers(ts, t, h)
  {
    BeforeTally(ts, t, f, Tokens, h);
    BeforeTally(ts, t, f, Jobs, h);
    BeforeTally(ts, t, f, Late, h);
    BeforeTally(ts, t, f, Critical, h);
    BeforeTally(ts, t, f, Freed, h);
    BeforeTally(ts, t, f, Resetting, h);
    BeforeTally(ts, t, f, Enlisting, h);
    BeforeTally(ts, t, f, Busy, h);
  }

  lemma NumbersWithTop(ts: seq<Thread>, t: nat, top: seq<Frame>, ts': seq<Thread>, h: Id)
    requires t < |ts| && ts[t].stack != [] && ts' == ts[t := ts[t].(stack := top + ts[t].stack[1..])]
    ensures NumbersAt(ts', h) == Plus(AroundNumbers(ts, t, h), StackNumbers(top, h))
  {
    AfterTally(ts, t, top, ts', Tokens, h);
    AfterTally(ts, t, top, ts', Jobs, h);
    AfterTally(ts, t, top, ts', Late, h);
    AfterTally(ts, t, top, ts', Critical, h);
    AfterTally(ts, t, top, ts', Freed, h);
    AfterTally(ts, t, top, ts', Resetting, h);
    AfterTally(ts, t, top, ts', Enlisting, h);
    AfterTally(ts, t, top, ts', Busy, h);
  }

  lemma BeforeIsAroundPlusTop(s: State, t: nat, hs': seq<Handle>, top: seq<Frame>, h: Id)
    requires t < |s.threads| && s.threads[t].stack != []
    ensures var f := s.threads[t].stack[0];
            NumbersAt(s.threads, h)
            == if f.h == h then Plus(AroundNumbers(s.threads, t, h), FrameNumbers(f)) else AroundNumbers(s.threads, t, h)
    ensures NumbersAt(SetTop(s, t, hs', top).threads, h)
            == Plus(AroundNumbers(s.threads, t, h), StackNumbers(top, h))
  {
    NumbersBefore(s.threads, t, s.threads[t].stack[0], h);
    NumbersWithTop(s.threads, t, top, SetTop(s, t, hs', top).threads, h);
  }

  lemma {:induction false} NotInStack(top: seq<Frame>, h: Id)
    requires forall k :: 0 <= k < |top| ==> top[k].h != h
    ensures StackNumbers(top, h) == NONE
  {
    if top != [] {
      NotInStack(top[1..], h);
      StackNumbersCons(top[0], top[1..], h);
      assert top == [top[0]] + top[1..];
    }
  }

  lemma NumbersUntouched(s: State, t: nat, hs': seq<Handle>, top: seq<Frame>, h: Id)
    requires t < |s.threads| && s.threads[t].stack != [] && s.threads[t].stack[0].h != h
    requires forall k :: 0 <= k < |top| ==> top[k].h != h
    ensures NumbersAt(SetTop(s, t, hs', top).threads, h) == NumbersAt(s.threads, h)
  {
    BeforeIsAroundPlusTop(s, t, hs', top, h);
    NotInStack(top, h);
  }

  lemma SameHandleAt(s: State, s': State, h: Id)
    requires h < |s.handles| && h < |s'.handles| && s'.handles[h] == s.handles[h] && HandleAt(s, h)
    requires NumbersAt(s'.threads, h) == NumbersAt(s.threads, h) && RefsTo(s'.handles, h) == RefsTo(s.handles, h)
    ensures HandleAt(s', h)
  {
  }

  // A handle that the step does not concern.
  lemma Untouched(s: State, t: nat, hs': seq<Handle>, top: seq<Frame>, h: Id)
    requires t < |s.threads| && s.threads[t].stack != [] && s.threads[t].stack[0].h != h
    requires forall k :: 0 <= k < |top| ==> top[k].h != h
    requires RefsTo(hs', h) == RefsTo(s.handles, h)
    ensures NumbersAt(SetTop(s, t, hs', top).threads, h) == NumbersAt(s.threads, h)
    ensures h < |s.handles| && h < |hs'| && hs'[h] == s.handles[h] && HandleAt(s, h) ==>
              HandleAt(SetTop(s, t, hs', top), h)
    ensures Fresh(s, h) ==> Fresh(SetTop(s, t, hs', top), h)
  {
    NumbersUntouched(s, t, hs', top, h);
    if h < |s.handles| && h < |hs'| && hs'[h] == s.handles[h] && HandleAt(s, h) {
      SameHandleAt(s, SetTop(s, t, hs', top), h);
    }
  }

  lemma ShapeKept(hs: seq<Handle>, hs': seq<Handle>, h: Id)
    requires h < |hs| && Extends(hs, hs') && ShapeOk(hs, h) && hs'[h].refs == hs[h].refs
    ensures ShapeOk(hs', h)
  {
  }

  // Changing a record, but not its references, leaves shapes and references as they are.
  lemma RecordKept(hs: seq<Handle>, i: Id, r: Handle, hs': seq<Handle>)
    requires i < |hs| && r.kind == hs[i].kind && r.parents == hs[i].parents && r.refs == hs[i].refs
    requires hs' == hs[i := r]
    requires forall h :: 0 <= h < |hs| ==> ShapeOk(hs, h)
    ensures Extends(hs, hs')
    ensures forall h :: 0 <= h < |hs| ==> ShapeOk(hs', h)
    ensures forall h :: RefsTo(hs', h) == RefsTo(hs, h)
  {
    forall h | 0 <= h < |hs|
      ensures ShapeOk(hs', h)
    {
      ShapeKept(hs, hs', h);
    }
    forall h: Id
      ensures RefsTo(hs', h) == RefsTo(hs, h)
    {
      RefsToUpdate(hs, i, r, h);
    }
  }

  // The handles apart from those a step is about.
  lemma OthersUntouched(s: State, t: nat, hs': seq<Handle>, top: seq<Frame>, about: set<Id>, s': State)
    requires t < |s.threads| && s.threads[t].stack != [] && s.threads[t].stack[0].h in about
    requires s' == SetTop(s, t, hs', top)
    requires forall k :: 0 <= k < |top| ==> top[k].h in about
    requires |hs'| == |s.handles| && forall h :: h in about ==> h < |hs'|
    requires forall h :: 0 <= h < |hs'| && h !in about ==> hs'[h] == s.handles[h]
    requires forall h :: h !in about ==> RefsTo(hs', h) == RefsTo(s.handles, h)
    requires forall h :: 0 <= h < |hs'| && h !in about ==> HandleAt(s, h)
    requires forall h :: h >= |hs'| ==> Fresh(s, h)
    ensures forall h :: 0 <= h < |hs'| && h !in about ==> HandleAt(s', h)
    ensures forall h :: h >= |hs'| ==> Fresh(s', h)
  {
    forall h | 0 <= h < |hs'| && h !in about
      ensures HandleAt(s', h)
    {
      Untouched(s, t, hs', top, h);
    }
    forall h | h >= |hs'|
      ensures Fresh(s', h)
    {
      assert h !in about;
      Untouched(s, t, hs', top, h);
    }
  }

  lemma Single(g: Frame, h: Id)
    ensures StackNumbers([g], h) == if g.h == h then FrameNumbers(g) else NONE
    ensures StackNumbers([], h) == NONE
  {
    StackNumbersCons(g, [], h);
    assert [g] + [] == [g];
    PlusNone(FrameNumbers(g));
  }

  lemma PlusNone(n: Numbers)
    ensures Plus(n, NONE) == n && Plus(NONE, n) == n
  {
  }

  lemma AfterNumbers(s: State, t: nat, hs': seq<Handle>, g: Frame)
    requires t < |s.threads| && s.threads[t].stack != []
    ensures NumbersAt(SetTop(s, t, hs', [g]).threads, g.h) == Plus(AroundNumbers(s.threads, t, g.h), FrameNumbers(g))
  {
    BeforeIsAroundPlusTop(s, t, hs', [g], g.h);
    Single(g, g.h);
  }

  // A step that replaces the top frame by one on the same handle and changes its record only keeps
  // the invariant if the numbers of that handle still fit.
  lemma OneHandle(s: State, t: nat, r: Handle, g: Frame)
    requires Inv(s) && t < |s.threads| && s.threads[t].stack != []
    requires var f := s.threads[t].stack[0];
             && g.h == f.h < |s.handles| && r.kind == s.handles[f.h].kind && r.parents == s.handles[f.h].parents
             && r.refs == s.handles[f.h].refs
    ensures FrameOk(s.handles, g)
            && HandleOk(r, Plus(AroundNumbers(s.threads, t, g.h), FrameNumbers(g)), RefsTo(s.handles, g.h)) ==>
              Inv(SetTop(s, t, s.handles[g.h := r], [g]))
  {
    if !FrameOk(s.handles, g)
       || !HandleOk(r, Plus(AroundNumbers(s.threads, t, g.h), FrameNumbers(g)), RefsTo(s.handles, g.h)) {
      return;
    }
    var hs' := s.handles[g.h := r];
    RecordKept(s.handles, g.h, r, hs');
    FrameKept(s.handles, hs', g);
    assert [g][1..] == [];
    FramesKept(s, t, hs', [g]);
    OthersUntouched(s, t, hs', [g], {g.h}, SetTop(s, t, hs', [g]));
    AfterNumbers(s, t, hs', g);
  }
}
