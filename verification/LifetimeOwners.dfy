/** Which connection a LOB or an object belongs to, what the lists of connections and the calls that walk
    them have to do with it, and which calls close objects. */
module LifetimeOwners {
  import opened Wrappers
  import opened Lifetimes
  import opened LifetimeCounts
  import opened LifetimeInvariant
  import opened LifetimeSteps
  import opened LifetimeKeeps
  import opened LifetimeRuns
  import opened LifetimeLists

  // The connection of a LOB, or of an object that does not depend on another one, by creation.
  predicate OwnedBy(hs: seq<Handle>, p: Id, c: Id) {
    && p < |hs| && c < |hs|
    && ((hs[p].kind == Lob && hs[p].parents == [c])
        || (hs[p].kind == Object && |hs[p].parents| == 1 && hs[p].parents[0] < p
            && hs[hs[p].parents[0]].kind == ObjectType && hs[hs[p].parents[0]].parents != []
            && hs[hs[p].parents[0]].parents[0] == c))
  }

  lemma OwnerKept(hs: seq<Handle>, hs': seq<Handle>, p: Id, c: Id)
    requires Extends(hs, hs') && p < |hs|
    ensures OwnedBy(hs, p, c) ==> OwnedBy(hs', p, c)
    ensures c < |hs| && OwnedBy(hs', p, c) ==> OwnedBy(hs, p, c)
  {
  }

  lemma OneOwner(hs: seq<Handle>, p: Id, c: Id, d: Id)
    requires OwnedBy(hs, p, c) && OwnedBy(hs, p, d)
    ensures c == d
  {
  }

  // ---- the way from a handle to its connection ----

  lemma LiveKeepsRefs(r: Handle, n: Numbers, refsTo: int)
    requires HandleOk(r, n, refsTo) && r.count >= 1
    ensures r.refs == r.parents
  {
  }

  lemma ParentKeepsRefs(s: State, p: Id)
    requires Inv(s) && p < |s.handles| && s.handles[p].count >= 1
    ensures ShapeOk(s.handles, p) && s.handles[p].refs == s.handles[p].parents
  {
    assert HandleAt(s, p);
    LiveKeepsRefs(s.handles[p], NumbersAt(s.threads, p), RefsTo(s.handles, p));
  }

  lemma CountCovers(s: State, c: Id)
    requires Inv(s) && c < |s.handles|
    ensures s.handles[c].count >= RefsTo(s.handles, c)
  {
    assert HandleAt(s, c);
  }

  // Whatever a handle refers to is alive.
  lemma ReferredIsAlive(s: State, h: Id, p: Id)
    requires Inv(s) && h < |s.handles| && p < |s.handles| && p in s.handles[h].refs
    ensures s.handles[p].count >= 1
  {
    RefsToSome(s.handles, h, p);
    CountCovers(s, p);
  }

  lemma ParentInRange(s: State, p: Id)
    requires Inv(s) && p < |s.handles| && s.handles[p].parents != []
    ensures s.handles[p].parents[0] < p
  {
    assert ShapeOk(s.handles, p);
  }

  // A handle that has not given back its references keeps its connection alive.
  lemma OwnerIsAlive(s: State, p: Id, c: Id)
    requires Inv(s) && OwnedBy(s.handles, p, c) && s.handles[p].refs == s.handles[p].parents
    ensures s.handles[c].count >= 1
  {
    var q := s.handles[p].parents[0];
    ParentInRange(s, p);
    assert q in s.handles[p].refs;
    ReferredIsAlive(s, p, q);
    if s.handles[p].kind == Object {
      ParentKeepsRefs(s, q);
      assert c in s.handles[q].refs;
      ReferredIsAlive(s, q, c);
    }
  }

  // Steps that may look at the connection of a LOB or an object.
  predicate NeedsOwner(f: Frame) {
    ChangesLists(f) || f.pc.CheckOpen? || f.pc.CloseFree?
  }

  lemma BusyKeepsRefs(r: Handle, n: Numbers, refsTo: int, f: Frame)
    requires HandleOk(r, Plus(n, FrameNumbers(f)), refsTo) && Coherent(n) && refsTo >= 0
    requires NeedsOwner(f) && (f.pc.Enlist? || f.pc.CheckOpen? ==> !f.freeing)
    ensures r.refs == r.parents
  {
  }

  lemma FrameKind(hs: seq<Handle>, f: Frame)
    requires FrameOk(hs, f) && NeedsOwner(f)
    ensures f.pc.Enlist? || f.pc.CheckOpen? ==> !f.freeing
    ensures ChangesLists(f) ==> hs[f.h].kind == Lob || (hs[f.h].kind == Object && !Dependent(hs[f.h]))
  {
  }

  lemma TopKeepsRefs(s: State, t: nat, f: Frame, r: Handle, n: Numbers, refsTo: nat)
    requires Inv(s) && AtTop(s, t) && f == Top(s, t) && NeedsOwner(f)
    requires f.pc.Enlist? || f.pc.CheckOpen? ==> !f.freeing
    requires f.h < |s.handles| && r == s.handles[f.h] && refsTo == RefsTo(s.handles, f.h)
    requires n == AroundNumbers(s.threads, t, f.h)
    ensures r.refs == r.parents
  {
    TopOk(s, t);
    BusyKeepsRefs(r, n, refsTo, f);
  }

  lemma OwnRefs(s: State, t: nat)
    requires Inv(s) && AtTop(s, t) && NeedsOwner(Top(s, t))
    ensures var h := Top(s, t).h;
            && h < |s.handles| && s.handles[h].refs == s.handles[h].parents
            && (ChangesLists(Top(s, t)) ==>
                  s.handles[h].kind == Lob || (s.handles[h].kind == Object && !Dependent(s.handles[h])))
  {
    var f := Top(s, t);
    TopFrameOk(s, t);
    FrameKind(s.handles, f);
    TopKeepsRefs(s, t, f, s.handles[f.h], AroundNumbers(s.threads, t, f.h), RefsTo(s.handles, f.h));
  }

  lemma OneParent(hs: seq<Handle>, r: Handle)
    requires ParentsOk(hs, r.kind, r.parents) && (r.kind == Lob || (r.kind == Object && !Dependent(r)))
    ensures |r.parents| == 1 && KindIs(hs, r.parents[0], if r.kind == Lob then Connection else ObjectType)
  {
  }

  lemma OneParentAt(s: State, h: Id)
    requires Inv(s) && h < |s.handles|
    requires s.handles[h].kind == Lob || (s.handles[h].kind == Object && !Dependent(s.handles[h]))
    ensures |s.handles[h].parents| == 1
    ensures KindIs(s.handles, s.handles[h].parents[0], if s.handles[h].kind == Lob then Connection else ObjectType)
  {
    assert ShapeOk(s.handles, h);
    OneParent(s.handles, s.handles[h]);
  }

  lemma TypeHasConnection(hs: seq<Handle>, r: Handle)
    requires ParentsOk(hs, r.kind, r.parents) && r.kind == ObjectType
    ensures r.parents != [] && r.parents[0] < |hs|
  {
  }

  lemma OwnerFound(hs: seq<Handle>, h: Id, q: Id)
    requires q < h < |hs| && hs[h].parents == [q] && hs[h].refs == [q]
    requires hs[h].kind == Lob || hs[h].kind == Object
    requires hs[h].kind == Object ==>
               hs[q].kind == ObjectType && hs[q].refs == hs[q].parents && hs[q].parents != [] && hs[q].parents[0] < |hs|
    ensures ConnectionOf(hs, h).Some? && OwnedBy(hs, h, ConnectionOf(hs, h).value)
  {
  }

  // The connection that a step looks at, or whose list it changes, is the one the handle belongs to.
  lemma OwnerIs(s: State, t: nat)
    requires Inv(s) && AtTop(s, t) && NeedsOwner(Top(s, t))
    requires ChangesLists(Top(s, t)) || (Top(s, t).h < |s.handles| && s.handles[Top(s, t).h].kind == Lob)
    ensures ConnectionOf(s.handles, Top(s, t).h).Some? && OwnedBy(s.handles, Top(s, t).h, ListOwner(s, t))
  {
    var h := Top(s, t).h;
    OwnRefs(s, t);
    OneParentAt(s, h);
    WayToOwner(s, h, s.handles[h].parents[0]);
    OwnerFound(s.handles, h, s.handles[h].parents[0]);
  }

  // The first parent of a handle that still holds it, and what that one holds.
  lemma WayToOwner(s: State, h: Id, q: Id)
    requires Inv(s) && h < |s.handles| && s.handles[h].refs == s.handles[h].parents == [q]
    ensures q < h && s.handles[q].refs == s.handles[q].parents
    ensures s.handles[q].kind == ObjectType ==> s.handles[q].parents != [] && s.handles[q].parents[0] < |s.handles|
  {
    ParentInRange(s, h);
    assert q in s.handles[h].refs;
    ReferredIsAlive(s, h, q);
    ParentKeepsRefs(s, q);
    if s.handles[q].kind == ObjectType {
      TypeHasConnection(s.handles, s.handles[q]);
    }
  }

  // ---- entries and readers ----

  predicate EntriesOwned(hs: seq<Handle>, l: seq<Option<Id>>, kind: Kind, c: Id) {
    forall i :: 0 <= i < |l| && l[i].Some? ==> OwnedBy(hs, l[i].value, c) && hs[l[i].value].kind == kind
  }

  predicate ListsOwned(hs: seq<Handle>) {
    forall c :: 0 <= c < |hs| ==> EntriesOwned(hs, hs[c].objects, Object, c) && EntriesOwned(hs, hs[c].lobs, Lob, c)
  }

  // A close by someone who holds a reference, not by the free procedure.
  predicate Closes(f: Frame) {
    !f.freeing && (f.pc.CloseTest? || f.pc.CloseFree? || f.pc.ObjectUnlist? || f.pc.ObjectReset?)
  }

  ghost predicate OwnerClosed(hs: seq<Handle>, p: Id) {
    forall c: Id :: OwnedBy(hs, p, c) ==> hs[c].everClosed
  }

  // The close of a connection reads its own entries; an object is closed in such a close only.
  ghost predicate FrameOwned(hs: seq<Handle>, f: Frame) {
    && (f.pc.WalkCheck? ==> OwnedBy(hs, f.pc.entry, f.h))
    && (Closes(f) && f.h < |hs| && hs[f.h].kind == Object ==> OwnerClosed(hs, f.h))
  }

  ghost predicate FramesOwned(s: State) {
    forall t, k :: 0 <= t < |s.threads| && 0 <= k < |s.threads[t].stack| ==> FrameOwned(s.handles, s.threads[t].stack[k])
  }

  ghost predicate OwnersOk(s: State) {
    ListsOwned(s.handles) && FramesOwned(s)
  }

  // Closing is not undone.
  predicate ClosedStays(hs: seq<Handle>, hs': seq<Handle>) {
    |hs| <= |hs'| && forall c :: 0 <= c < |hs| && hs[c].everClosed ==> hs'[c].everClosed
  }

  lemma EntriesStayOwned(hs: seq<Handle>, hs': seq<Handle>, l: seq<Option<Id>>, kind: Kind, c: Id)
    requires Extends(hs, hs') && EntriesOwned(hs, l, kind, c)
    ensures EntriesOwned(hs', l, kind, c)
  {
    forall i | 0 <= i < |l| && l[i].Some?
      ensures OwnedBy(hs', l[i].value, c) && hs'[l[i].value].kind == kind
    {
      OwnerKept(hs, hs', l[i].value, c);
    }
  }

  lemma FrameStaysOwned(hs: seq<Handle>, hs': seq<Handle>, f: Frame)
    requires Extends(hs, hs') && ClosedStays(hs, hs') && FrameOwned(hs, f) && f.h < |hs|
    requires (forall i :: 0 <= i < |hs| ==> ShapeOk(hs, i))
    ensures FrameOwned(hs', f)
  {
    if f.pc.WalkCheck? {
      OwnerKept(hs, hs', f.pc.entry, f.h);
    }
    if Closes(f) && hs[f.h].kind == Object {
      forall c: Id | OwnedBy(hs', f.h, c)
        ensures hs'[c].everClosed
      {
        OwnerInRange(hs, hs', f.h, c);
        OwnerKept(hs, hs', f.h, c);
      }
    }
  }

  lemma OwnerInRange(hs: seq<Handle>, hs': seq<Handle>, p: Id, c: Id)
    requires Extends(hs, hs') && p < |hs| && OwnedBy(hs', p, c) && (forall i :: 0 <= i < |hs| ==> ShapeOk(hs, i))
    ensures c < |hs|
  {
    var q := hs[p].parents[0];
    assert ShapeOk(hs, p);
    if hs[p].kind == Object {
      assert ShapeOk(hs, q);
    }
  }

  // ---- steps of calls ----

  // What the frames that a step stacks have to do with closing objects and reading entries.
  predicate Stacks(hs: seq<Handle>, f: Frame, g: Frame)
    requires f.h < |hs|
  {
    && (g.pc.WalkCheck? ==> f.pc.Walk? && g.h == f.h && (Some(g.pc.entry) in hs[f.h].objects || Some(g.pc.entry) in hs[f.h].lobs))
    && (Closes(g) ==> || (g.h == f.h && (Closes(f) || hs[f.h].kind == Lob))
                      || (f.pc.WalkCheck? && g.h == f.pc.entry < |hs| && hs[g.h].checkInt))
  }

  lemma WalkStacksEntry(s: State, t: nat, choice: Choice, s': State)
    requires Runs(s, t, choice, s') && Top(s, t).pc.Walk?
    ensures |s'.threads| == |s.threads| && |s'.threads[t].stack| + 1 >= |s.threads[t].stack|
    ensures forall k :: 0 <= k < |NewTop(s, t, s')| ==> Stacks(s.handles, Top(s, t), NewTop(s, t, s')[k])
  {
    RunStacks(s, t, choice, s');
  }

  lemma OtherStacks(s: State, t: nat, choice: Choice, s': State)
    requires Runs(s, t, choice, s') && StacksFrames(s, t) && !Top(s, t).pc.Walk? && FrameOk(s.handles, Top(s, t))
    ensures |s'.threads| == |s.threads| && |s'.threads[t].stack| + 1 >= |s.threads[t].stack|
    ensures forall k :: 0 <= k < |NewTop(s, t, s')| ==> Stacks(s.handles, Top(s, t), NewTop(s, t, s')[k])
  {
    RunStacks(s, t, choice, s');
  }

  lemma BusyConnection(r: Handle, n: Numbers, refsTo: int, f: Frame)
    requires HandleOk(r, Plus(n, FrameNumbers(f)), refsTo) && Coherent(n) && refsTo >= 0
    requires r.kind == Connection && IsBusy(f.pc) && r.count >= 1
    ensures r.everClosed
  {
  }

  lemma WalkerKind(hs: seq<Handle>, f: Frame)
    requires FrameOk(hs, f) && f.pc.WalkCheck?
    ensures hs[f.h].kind == Connection
  {
  }

  // Who walks the list of a connection and finds a handle that is alive does so for a user: when the
  // connection is freed, nothing that belongs to it is alive.
  lemma WalkerClosed(s: State, t: nat)
    requires Inv(s) && AtTop(s, t) && Top(s, t).pc.WalkCheck? && OwnedBy(s.handles, Top(s, t).pc.entry, Top(s, t).h)
    requires s.handles[Top(s, t).pc.entry].checkInt
    ensures s.handles[Top(s, t).h].everClosed
  {
    var f := Top(s, t);
    AliveByCheck(s, f.pc.entry);
    ParentKeepsRefs(s, f.pc.entry);
    OwnerIsAlive(s, f.pc.entry, f.h);
    TopOk(s, t);
    WalkerKind(s.handles, f);
    BusyConnection(s.handles[f.h], AroundNumbers(s.threads, t, f.h), RefsTo(s.handles, f.h), f);
  }

  lemma AliveByCheck(s: State, p: Id)
    requires Inv(s) && p < |s.handles| && s.handles[p].checkInt
    ensures s.handles[p].count >= 1
  {
    assert HandleAt(s, p);
  }

  lemma EntryOwned(hs: seq<Handle>, c: Id, p: Id)
    requires ListsOwned(hs) && c < |hs| && (Some(p) in hs[c].objects || Some(p) in hs[c].lobs)
    ensures OwnedBy(hs, p, c)
  {
    assert EntriesOwned(hs, hs[c].objects, Object, c) && EntriesOwned(hs, hs[c].lobs, Lob, c);
  }

  lemma OneOwnerClosed(hs: seq<Handle>, p: Id, c: Id)
    requires OwnedBy(hs, p, c) && hs[c].everClosed
    ensures OwnerClosed(hs, p)
  {
    forall d: Id | OwnedBy(hs, p, d)
      ensures hs[d].everClosed
    {
      OneOwner(hs, p, c, d);
    }
  }

  // A frame that a step stacks.
  lemma NewFrameOwned(s: State, t: nat, g: Frame)
    requires Inv(s) && OwnersOk(s) && AtTop(s, t) && Top(s, t).h < |s.handles| && Stacks(s.handles, Top(s, t), g)
    ensures FrameOwned(s.handles, g)
  {
    var f := Top(s, t);
    assert FrameOwned(s.handles, f);
    if g.pc.WalkCheck? {
      EntryOwned(s.handles, f.h, g.pc.entry);
    }
    if Closes(g) && g.h < |s.handles| && s.handles[g.h].kind == Object && g.h != f.h {
      WalkerClosed(s, t);
      OneOwnerClosed(s.handles, g.h, f.h);
    }
  }

  lemma RunClosedStays(s: State, t: nat, choice: Choice, s': State)
    requires Runs(s, t, choice, s') && FrameOk(s.handles, Top(s, t))
    ensures ClosedStays(s.handles, s'.handles)
  {
    if !ChangesLists(Top(s, t)) {
      ListsStay(s, t, choice, s');
    }
  }

  lemma RunFrameOwned(s: State, t: nat, choice: Choice, s': State, u: nat, k: nat)
    requires FullInv(s) && OwnersOk(s) && Runs(s, t, choice, s')
    requires u < |s'.threads| && k < |s'.threads[u].stack|
    ensures s'.threads[u].stack[k].h < |s.handles| ==> FrameOwned(s.handles, s'.threads[u].stack[k])
  {
    OtherThreads(s, t, choice, s');
    var g := s'.threads[u].stack[k];
    if u != t {
      assert g == s.threads[u].stack[k];
    } else if |s'.threads[t].stack| < k + |s.threads[t].stack| {
      RestStays(s, t, choice, s', k);
      var i :| 0 <= i < |s.threads[t].stack| && s.threads[t].stack[i] == g;
    } else {
      TopFrameOk(s, t);
      if Top(s, t).pc.Walk? {
        WalkStacksEntry(s, t, choice, s');
      } else {
        OtherStacks(s, t, choice, s');
      }
      assert g == NewTop(s, t, s')[k];
      NewFrameOwned(s, t, g);
    }
  }

  lemma {:induction false} FrameInOkStack(hs: seq<Handle>, stack: seq<Frame>, k: nat)
    requires StackOk(hs, stack) && k < |stack|
    ensures FrameOk(hs, stack[k])
  {
    if k > 0 {
      FrameInOkStack(hs, stack[1..], k - 1);
    }
  }

  lemma FramesStayOwned(s: State, t: nat, choice: Choice, s': State)
    requires FullInv(s) && OwnersOk(s) && Runs(s, t, choice, s') && FramesOk(s')
    ensures FramesOwned(s')
  {
    TopFrameOk(s, t);
    RunExtends(s, t, choice, s');
    RunClosedStays(s, t, choice, s');
    forall u, k | 0 <= u < |s'.threads| && 0 <= k < |s'.threads[u].stack|
      ensures FrameOwned(s'.handles, s'.threads[u].stack[k])
    {
      RunFrameOwned(s, t, choice, s', u, k);
      FrameInOkStack(s'.handles, s'.threads[u].stack, k);
      FrameStaysOwned(s.handles, s'.handles, s'.threads[u].stack[k]);
    }
  }

  // ---- the lists after a step ----

  function KindList(r: Handle, kind: Kind): seq<Option<Id>> {
    if kind == Lob then r.lobs else r.objects
  }

  // The slot and the entry that a step changes.
  function ChangedSlot(s: State, t: nat, choice: Choice): nat
    requires AtTop(s, t) && Top(s, t).h < |s.handles|
  {
    if Top(s, t).pc == Enlist then choice.slot else s.handles[Top(s, t).h].slot
  }

  function ChangedEntry(f: Frame): Option<Id> {
    if f.pc == Enlist then Some(f.h) else None
  }

  lemma ListsAfter(s: State, t: nat, choice: Choice, s': State)
    requires Runs(s, t, choice, s') && ChangesLists(Top(s, t)) && FrameOk(s.handles, Top(s, t))
    ensures |s'.handles| == |s.handles| && ListOwner(s, t) < |s.handles|
    ensures forall c :: 0 <= c < |s.handles| && c != ListOwner(s, t) ==>
                s'.handles[c].lobs == s.handles[c].lobs && s'.handles[c].objects == s.handles[c].objects
    ensures var c, f := ListOwner(s, t), Top(s, t);
            var k := s.handles[f.h].kind;
            && (f.pc != Enlist && s.handles[c].closing ==>
                  s'.handles[c].lobs == s.handles[c].lobs && s'.handles[c].objects == s.handles[c].objects)
            && (f.pc == Enlist || !s.handles[c].closing ==>
                  if k == Lob
                  then s'.handles[c].objects == s.handles[c].objects
                       && s'.handles[c].lobs == Put(s.handles[c].lobs, ChangedSlot(s, t, choice), ChangedEntry(f))
                  else s'.handles[c].lobs == s.handles[c].lobs
                       && s'.handles[c].objects == Put(s.handles[c].objects, ChangedSlot(s, t, choice), ChangedEntry(f)))
  {
  }

  lemma PutOwned(hs: seq<Handle>, l: seq<Option<Id>>, i: nat, e: Option<Id>, kind: Kind, c: Id)
    requires EntriesOwned(hs, l, kind, c) && (e.Some? ==> OwnedBy(hs, e.value, c) && hs[e.value].kind == kind)
    ensures EntriesOwned(hs, Put(l, i, e), kind, c)
  {
  }

  lemma ListsStayOwned(s: State, t: nat, choice: Choice, s': State)
    requires FullInv(s) && OwnersOk(s) && Runs(s, t, choice, s')
    ensures ListsOwned(s'.handles)
  {
    TopFrameOk(s, t);
    RunExtends(s, t, choice, s');
    forall c | 0 <= c < |s'.handles|
      ensures EntriesOwned(s'.handles, s'.handles[c].objects, Object, c)
      ensures EntriesOwned(s'.handles, s'.handles[c].lobs, Lob, c)
    {
      OneListOwned(s, t, choice, s', c);
      EntriesStayOwned(s.handles, s'.handles, s'.handles[c].objects, Object, c);
      EntriesStayOwned(s.handles, s'.handles, s'.handles[c].lobs, Lob, c);
    }
  }

  lemma OneListOwned(s: State, t: nat, choice: Choice, s': State, c: Id)
    requires FullInv(s) && OwnersOk(s) && Runs(s, t, choice, s') && FrameOk(s.handles, Top(s, t)) && c < |s.handles|
    ensures |s'.handles| == |s.handles|
    ensures EntriesOwned(s.handles, s'.handles[c].objects, Object, c)
    ensures EntriesOwned(s.handles, s'.handles[c].lobs, Lob, c)
  {
    var f := Top(s, t);
    assert EntriesOwned(s.handles, s.handles[c].objects, Object, c) && EntriesOwned(s.handles, s.handles[c].lobs, Lob, c);
    if !ChangesLists(f) {
      ListsStay(s, t, choice, s');
    } else {
      ListsAfter(s, t, choice, s');
      if c == ListOwner(s, t) {
        OwnerIs(s, t);
        var i, e := ChangedSlot(s, t, choice), ChangedEntry(f);
        if s.handles[f.h].kind == Lob {
          PutOwned(s.handles, s.handles[c].lobs, i, e, Lob, c);
        } else {
          PutOwned(s.handles, s.handles[c].objects, i, e, Object, c);
        }
      }
    }
  }

  // ---- every step ----

  lemma CallFrames(s: State, l: Label, s': State, u: nat, k: nat)
    requires Enabled(s, l) && !l.Run? && s' == Next(s, l)
    requires u < |s'.threads| && k < |s'.threads[u].stack|
    ensures var g := s'.threads[u].stack[k];
            || g.pc.Finish? || g.pc.CheckOpen? || g.pc.Enlist?
            || (u < |s.threads| && k < |s.threads[u].stack| && g == s.threads[u].stack[k])
  {
  }

  lemma CallFrameOwned(s: State, l: Label, s': State, u: nat, k: nat)
    requires FullInv(s) && FramesOwned(s) && Enabled(s, l) && !l.Run? && s' == Next(s, l)
    requires u < |s'.threads| && k < |s'.threads[u].stack|
    ensures FrameOwned(s'.handles, s'.threads[u].stack[k])
  {
    CallFrames(s, l, s', u, k);
    var g := s'.threads[u].stack[k];
    if !(g.pc.Finish? || g.pc.CheckOpen? || g.pc.Enlist?) {
      FrameInOkStack(s.handles, s.threads[u].stack, k);
      CallPlaces(s, l, s');
      CallHandles(s, l, s');
      FrameStaysOwned(s.handles, s'.handles, g);
    }
  }

  lemma CallKeepsFrames(s: State, l: Label, s': State)
    requires FullInv(s) && FramesOwned(s) && Enabled(s, l) && !l.Run? && s' == Next(s, l)
    ensures FramesOwned(s')
  {
    forall u, k | 0 <= u < |s'.threads| && 0 <= k < |s'.threads[u].stack|
      ensures FrameOwned(s'.handles, s'.threads[u].stack[k])
    {
      CallFrameOwned(s, l, s', u, k);
    }
  }

  lemma CallKeepsOwners(s: State, l: Label, s': State)
    requires FullInv(s) && OwnersOk(s) && Enabled(s, l) && !l.Run? && s' == Next(s, l)
    ensures OwnersOk(s')
  {
    CallPlaces(s, l, s');
    CallHandles(s, l, s');
    CallKeepsFrames(s, l, s');
    forall c | 0 <= c < |s'.handles|
      ensures EntriesOwned(s'.handles, s'.handles[c].objects, Object, c)
      ensures EntriesOwned(s'.handles, s'.handles[c].lobs, Lob, c)
    {
      if c < |s.handles| {
        assert EntriesOwned(s.handles, s.handles[c].objects, Object, c);
        EntriesStayOwned(s.handles, s'.handles, s'.handles[c].objects, Object, c);
        EntriesStayOwned(s.handles, s'.handles, s'.handles[c].lobs, Lob, c);
      }
    }
  }

  lemma NextKeepsOwners(s: State, l: Label)
    requires FullInv(s) && OwnersOk(s) && Enabled(s, l)
    ensures OwnersOk(Next(s, l))
  {
    if l.Run? {
      NextKeepsInv(s, l);
      ListsStayOwned(s, l.t, l.choice, Next(s, l));
      FramesStayOwned(s, l.t, l.choice, Next(s, l));
    } else {
      CallKeepsOwners(s, l, Next(s, l));
    }
  }
}
