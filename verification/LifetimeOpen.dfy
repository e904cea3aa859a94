/** The lists of a connection that was never closed by a user hold exactly its LOBs that have a locator and
    its objects that have an instance. */
module LifetimeOpen {
  import opened Wrappers
  import opened Lifetimes
  import opened LifetimeCounts
  import opened LifetimeInvariant
  import opened LifetimeSteps
  import opened LifetimeKeeps
  import opened LifetimeRuns
  import opened LifetimeLists
  import opened LifetimeOwners

  // ---- what the lists hold ----

  // A LOB with a locator that is not being taken out of its list, or an object with an instance, or that
  // is being taken out.
  predicate Present(s: State, p: Id)
    requires p < |s.handles|
  {
    if s.handles[p].kind == Lob then s.handles[p].pointer && Tally(s.threads, Unlisted, p) == 0
    else s.handles[p].pointer || Tally(s.threads, Freed, p) >= 1
  }

  predicate Listed(s: State, p: Id, kind: Kind, c: Id) {
    OwnedBy(s.handles, p, c) && s.handles[p].kind == kind && Tally(s.threads, Enlisting, p) == 0 && Present(s, p)
  }

  predicate EntryOk(s: State, c: Id, kind: Kind, i: nat)
    requires c < |s.handles| && i < |KindList(s.handles[c], kind)|
  {
    var e := KindList(s.handles[c], kind)[i];
    e.Some? ==> Listed(s, e.value, kind, c) && s.handles[e.value].slot == i
  }

  predicate InList(s: State, c: Id, kind: Kind, p: Id)
    requires c < |s.handles| && p < |s.handles|
  {
    var i := s.handles[p].slot;
    i < |KindList(s.handles[c], kind)| && KindList(s.handles[c], kind)[i] == Some(p)
  }

  // The list holds these handles, each at its own slot, and nothing else.
  predicate ListOk(s: State, c: Id, kind: Kind)
    requires c < |s.handles|
  {
    && (forall i :: 0 <= i < |KindList(s.handles[c], kind)| ==> EntryOk(s, c, kind, i))
    && (forall p :: 0 <= p < |s.handles| && Listed(s, p, kind, c) ==> InList(s, c, kind, p))
  }

  predicate NewPresent(s: State) {
    forall p :: 0 <= p < |s.handles| && Tally(s.threads, Enlisting, p) >= 1 ==> s.handles[p].pointer
  }

  predicate NeverClosed(s: State, c: Id) {
    c < |s.handles| && s.handles[c].kind == Connection && !s.handles[c].everClosed
  }

  predicate OpenOk(s: State) {
    && NewPresent(s)
    && forall c :: 0 <= c < |s.handles| && NeverClosed(s, c) ==> ListOk(s, c, Lob) && ListOk(s, c, Object)
  }

  // ---- steps that change neither the list nor what belongs into it ----

  predicate SameView(s: State, s': State, p: Id, kind: Kind, c: Id)
    requires p < |s.handles| && p < |s'.handles|
  {
    && (Listed(s', p, kind, c) <==> Listed(s, p, kind, c))
    && (Listed(s, p, kind, c) ==> s'.handles[p].slot == s.handles[p].slot)
  }

  lemma ListKept(s: State, s': State, c: Id, kind: Kind)
    requires c < |s.handles| <= |s'.handles| && ListOk(s, c, kind)
    requires KindList(s'.handles[c], kind) == KindList(s.handles[c], kind)
    requires forall p :: 0 <= p < |s.handles| ==> SameView(s, s', p, kind, c)
    requires forall p :: |s.handles| <= p < |s'.handles| ==> !Listed(s', p, kind, c)
    ensures ListOk(s', c, kind)
  {
    forall i | 0 <= i < |KindList(s'.handles[c], kind)|
      ensures EntryOk(s', c, kind, i)
    {
      assert EntryOk(s, c, kind, i);
      if KindList(s.handles[c], kind)[i].Some? {
        assert SameView(s, s', KindList(s.handles[c], kind)[i].value, kind, c);
      }
    }
    forall p | 0 <= p < |s'.handles| && Listed(s', p, kind, c)
      ensures InList(s', c, kind, p)
    {
      assert SameView(s, s', p, kind, c);
      assert InList(s, c, kind, p);
    }
  }

  // ---- who is alone at the change of a list ----

  lemma AroundAndTop(s: State, t: nat, f: Frame, p: Place)
    requires AtTop(s, t) && f == Top(s, t)
    ensures Tally(s.threads, p, f.h) == Around(s.threads, t, p, f.h) + At(f, p, f.h)
  {
    SetTopTally(s, t, s.handles, [], p, f.h);
  }

  predicate Settles(f: Frame) {
    f.pc.Enlist? || f.pc.LobUnlist? || f.pc.LobClear? || f.pc.ObjectUnlist?
  }

  lemma SettlingNumbers(r: Handle, n: Numbers, refsTo: int, f: Frame)
    requires HandleOk(r, Plus(n, FrameNumbers(f)), refsTo) && Coherent(n) && refsTo >= 0
    requires Settles(f) && (f.pc.Enlist? ==> !f.freeing)
    requires (f.pc.LobUnlist? || f.pc.LobClear? ==> r.kind == Lob) && (f.pc.ObjectUnlist? ==> r.kind == Object)
    ensures n.critical == 0 && n.enlisting == 0
    ensures (f.pc.LobUnlist? || f.pc.LobClear? ==> r.pointer) && (f.pc.ObjectUnlist? ==> !r.pointer)
  {
  }

  lemma SettlingFrame(hs: seq<Handle>, f: Frame)
    requires FrameOk(hs, f) && Settles(f)
    ensures (f.pc.Enlist? ==> !f.freeing) && (f.pc.LobUnlist? || f.pc.LobClear? ==> hs[f.h].kind == Lob)
    ensures f.pc.ObjectUnlist? ==> hs[f.h].kind == Object
  {
  }

  lemma SettlingFacts(s: State, t: nat, f: Frame, n: Numbers)
    requires Inv(s) && AtTop(s, t) && f == Top(s, t) && Settles(f) && n == AroundNumbers(s.threads, t, f.h)
    ensures f.h < |s.handles| && n.critical == 0 && n.enlisting == 0 && (f.pc.Enlist? ==> !f.freeing)
    ensures f.pc.LobUnlist? || f.pc.LobClear? ==> s.handles[f.h].kind == Lob && s.handles[f.h].pointer
    ensures f.pc.ObjectUnlist? ==> s.handles[f.h].kind == Object && !s.handles[f.h].pointer
  {
    TopOk(s, t);
    SettlingFrame(s.handles, f);
    SettlingNumbers(s.handles[f.h], n, RefsTo(s.handles, f.h), f);
  }

  // A handle that a frame puts into a list, or takes out of it, is the concern of that frame only.
  lemma Alone(s: State, t: nat, f: Frame)
    requires Inv(s) && AtTop(s, t) && f == Top(s, t) && Settles(f)
    ensures f.h < |s.handles| && Tally(s.threads, Enlisting, f.h) == One(f.pc.Enlist?)
    ensures Tally(s.threads, Unlisted, f.h) == One(f.pc.LobClear?)
    ensures Tally(s.threads, Freed, f.h) == One(!f.pc.Enlist?)
    ensures f.pc.LobUnlist? || f.pc.LobClear? ==> s.handles[f.h].kind == Lob && s.handles[f.h].pointer
    ensures f.pc.ObjectUnlist? ==> s.handles[f.h].kind == Object && !s.handles[f.h].pointer
  {
    SettlingFacts(s, t, f, AroundNumbers(s.threads, t, f.h));
    AroundCoherent(s.threads, t, f.h);
    AroundAndTop(s, t, f, Unlisted);
    AroundAndTop(s, t, f, Enlisting);
    AroundAndTop(s, t, f, Freed);
  }

  // ---- the other steps ----

  lemma PointerAfter(s: State, t: nat, choice: Choice, s': State, p: Id)
    requires Runs(s, t, choice, s') && !ChangesLists(Top(s, t)) && FrameOk(s.handles, Top(s, t)) && p < |s.handles|
    ensures |s'.handles| == |s.handles| && SameLists(Top(s, t), s.handles[p], s'.handles[p])
    ensures Top(s, t).pc.LobClear? && p == Top(s, t).h ==> !s'.handles[p].pointer
    ensures (Top(s, t).pc.LobClear? || Top(s, t).pc.CloseFree?) && p != Top(s, t).h ==>
              s'.handles[p].pointer == s.handles[p].pointer
  {
    ListsStay(s, t, choice, s');
  }

  lemma LobViewKept(s: State, t: nat, choice: Choice, s': State, p: Id, c: Id)
    requires Inv(s) && Runs(s, t, choice, s') && !ChangesLists(Top(s, t)) && p < |s.handles|
    requires FrameOk(s.handles, Top(s, t)) && s.handles[p].kind == Lob && Extends(s.handles, s'.handles)
    ensures p < |s'.handles| && (c < |s.handles| ==> SameView(s, s', p, Lob, c))
  {
    PointerAfter(s, t, choice, s', p);
    EnlistingAfter(s, t, choice, s', p);
    UnlistedAfter(s, t, choice, s', p);
    if Top(s, t).pc.LobClear? && p == Top(s, t).h {
      Alone(s, t, Top(s, t));
    }
    OwnerKept(s.handles, s'.handles, p, c);
  }

  // Freeing the instance of an object on behalf of a free procedure always goes on to the list.
  lemma InstanceFreed(s: State, t: nat, choice: Choice, s': State)
    requires Runs(s, t, choice, s') && Top(s, t).pc.CloseFree? && s.handles[Top(s, t).h].kind == Object
    requires Top(s, t).freeing && !Dependent(s.handles[Top(s, t).h])
    ensures var p := Top(s, t).h;
            p < |s'.handles| && Tally(s'.threads, Freed, p) == Tally(s.threads, Freed, p) + One(s.handles[p].pointer)
            && (s'.handles[p].pointer ==> s.handles[p].pointer)
  {
    var g := Top(s', t);
    PlaceAfter(s, t, [g], s', Freed, g.h);
    assert [g][0] == g && [g][1..] == [];
  }

  lemma FreeingObjectView(s: State, t: nat, choice: Choice, s': State, c: Id)
    requires Inv(s) && OwnersOk(s) && Runs(s, t, choice, s') && Top(s, t).pc.CloseFree? && NeverClosed(s, c)
    requires FrameOk(s.handles, Top(s, t)) && s.handles[Top(s, t).h].kind == Object && Extends(s.handles, s'.handles)
    ensures Top(s, t).h < |s'.handles| && SameView(s, s', Top(s, t).h, Object, c)
  {
    var f := Top(s, t);
    assert FrameOwned(s.handles, f);
    PointerAfter(s, t, choice, s', f.h);
    EnlistingAfter(s, t, choice, s', f.h);
    OwnerKept(s.handles, s'.handles, f.h, c);
    if OwnedBy(s.handles, f.h, c) {
      assert f.freeing;
      InstanceFreed(s, t, choice, s');
    }
  }

  lemma ObjectViewKept(s: State, t: nat, choice: Choice, s': State, p: Id, c: Id)
    requires Inv(s) && OwnersOk(s) && Runs(s, t, choice, s') && !ChangesLists(Top(s, t)) && p < |s.handles|
    requires FrameOk(s.handles, Top(s, t)) && s.handles[p].kind == Object && Extends(s.handles, s'.handles)
    requires NeverClosed(s, c)
    ensures p < |s'.handles| && SameView(s, s', p, Object, c)
  {
    var f := Top(s, t);
    if f.pc.CloseFree? && p == f.h {
      FreeingObjectView(s, t, choice, s', c);
    } else {
      PointerAfter(s, t, choice, s', p);
      EnlistingAfter(s, t, choice, s', p);
      FreedAfter(s, t, choice, s', p);
      OwnerKept(s.handles, s'.handles, p, c);
      if f.pc.LobClear? && p == f.h {
        Alone(s, t, f);
      }
    }
  }

  predicate HasList(kind: Kind) {
    kind == Lob || kind == Object
  }

  lemma ViewKept(s: State, t: nat, choice: Choice, s': State, p: Id, kind: Kind, c: Id)
    requires Inv(s) && OwnersOk(s) && Runs(s, t, choice, s') && !ChangesLists(Top(s, t)) && p < |s.handles|
    requires FrameOk(s.handles, Top(s, t)) && Extends(s.handles, s'.handles) && NeverClosed(s, c) && HasList(kind)
    ensures p < |s'.handles| && SameView(s, s', p, kind, c)
  {
    if s.handles[p].kind == kind {
      if kind == Lob {
        LobViewKept(s, t, choice, s', p, c);
      } else {
        ObjectViewKept(s, t, choice, s', p, c);
      }
    }
  }

  lemma OtherStepKeepsList(s: State, t: nat, choice: Choice, s': State, kind: Kind, c: Id)
    requires Inv(s) && OwnersOk(s) && Runs(s, t, choice, s') && !ChangesLists(Top(s, t))
    requires NeverClosed(s, c) && HasList(kind) && ListOk(s, c, kind)
    ensures c < |s'.handles| && ListOk(s', c, kind)
  {
    TopFrameOk(s, t);
    RunExtends(s, t, choice, s');
    ListsStay(s, t, choice, s');
    forall p | 0 <= p < |s.handles|
      ensures SameView(s, s', p, kind, c)
    {
      ViewKept(s, t, choice, s', p, kind, c);
    }
    ListKept(s, s', c, kind);
  }

  lemma NewPresentAfter(s: State, t: nat, choice: Choice, s': State)
    requires Inv(s) && NewPresent(s) && Runs(s, t, choice, s') && !ChangesLists(Top(s, t))
    ensures NewPresent(s')
  {
    TopFrameOk(s, t);
    ListsStay(s, t, choice, s');
    forall p | 0 <= p < |s'.handles| && Tally(s'.threads, Enlisting, p) >= 1
      ensures s'.handles[p].pointer
    {
      EnlistingAfter(s, t, choice, s', p);
      NewcomerUntouched(s, t, p);
      PointerAfter(s, t, choice, s', p);
      ConnectionPointer(s, t, choice, s', p);
    }
  }

  // Nobody closes a handle that is not in its list yet.
  lemma NewcomerUntouched(s: State, t: nat, p: Id)
    requires Inv(s) && AtTop(s, t) && p < |s.handles| && Tally(s.threads, Enlisting, p) >= 1 && Top(s, t).pc != Enlist
    ensures p == Top(s, t).h ==> !IsCritical(Top(s, t).pc)
  {
    NewcomerFacts(s, p);
    if p == Top(s, t).h {
      AroundAndTop(s, t, Top(s, t), Critical);
    }
  }

  lemma NewcomerFacts(s: State, p: Id)
    requires Inv(s) && p < |s.handles| && Tally(s.threads, Enlisting, p) >= 1
    ensures Tally(s.threads, Critical, p) == 0
  {
    assert HandleAt(s, p);
    TallyCoherent(s.threads, p);
    NewcomerNumbers(s.handles[p], NumbersAt(s.threads, p), RefsTo(s.handles, p));
  }

  lemma NewcomerNumbers(r: Handle, n: Numbers, refsTo: int)
    requires HandleOk(r, n, refsTo) && Coherent(n) && refsTo >= 0 && n.enlisting >= 1
    ensures n.critical == 0
  {
  }

  lemma ConnectionPointer(s: State, t: nat, choice: Choice, s': State, p: Id)
    requires Runs(s, t, choice, s') && !ChangesLists(Top(s, t)) && FrameOk(s.handles, Top(s, t)) && p < |s.handles|
    requires p == Top(s, t).h ==> !IsCritical(Top(s, t).pc)
    ensures p < |s'.handles| && s'.handles[p].pointer == s.handles[p].pointer
  {
    OneChanges(s, t, choice, s');
    if p == Changed(Top(s, t)) {
      RecordPointer(s, t, choice, s');
    }
  }

  lemma RecordPointer(s: State, t: nat, choice: Choice, s': State)
    requires Runs(s, t, choice, s') && !ChangesLists(Top(s, t)) && FrameOk(s.handles, Top(s, t))
    requires Top(s, t).pc.WalkCheck? || !IsCritical(Top(s, t).pc)
    ensures Changed(Top(s, t)) < |s.handles| && Changed(Top(s, t)) < |s'.handles|
    ensures s'.handles[Changed(Top(s, t))].pointer == s.handles[Changed(Top(s, t))].pointer
  {
  }

  lemma OtherStepKeeps(s: State, t: nat, choice: Choice, s': State)
    requires Inv(s) && OwnersOk(s) && OpenOk(s) && Runs(s, t, choice, s') && !ChangesLists(Top(s, t))
    ensures OpenOk(s')
  {
    TopFrameOk(s, t);
    NewPresentAfter(s, t, choice, s');
    ListsStay(s, t, choice, s');
    forall c | 0 <= c < |s'.handles| && NeverClosed(s', c)
      ensures ListOk(s', c, Lob) && ListOk(s', c, Object)
    {
      OtherStepKeepsList(s, t, choice, s', Lob, c);
      OtherStepKeepsList(s, t, choice, s', Object, c);
    }
  }

  // ---- steps that change a list ----

  lemma PutAt(l: seq<Option<Id>>, i: nat, e: Option<Id>, k: nat)
    requires k < |Put(l, i, e)|
    ensures |Put(l, i, e)| > i && |Put(l, i, e)| >= |l|
    ensures Put(l, i, e)[k] == if k == i then e else if k < |l| then l[k] else None
  {
  }

  lemma PutLong(l: seq<Option<Id>>, i: nat, e: Option<Id>)
    ensures |Put(l, i, e)| > i && |Put(l, i, e)| >= |l|
  {
  }

  // What such a step leaves of every record: all but the slot of the new handle and the list.
  predicate Relisted(r: Handle, r': Handle) {
    r' == r.(slot := r'.slot, objects := r'.objects, lobs := r'.lobs)
  }

  lemma EnlistRelists(s: State, t: nat, choice: Choice, s': State)
    requires Runs(s, t, choice, s') && Top(s, t).pc == Enlist
    ensures |s'.handles| == |s.handles|
    ensures forall p :: 0 <= p < |s.handles| ==> Relisted(s.handles[p], s'.handles[p])
    ensures forall p :: 0 <= p < |s.handles| ==>
                s'.handles[p].slot == if p == Top(s, t).h then choice.slot else s.handles[p].slot
  {
  }

  lemma EntryGone(hs: seq<Handle>, c: Id, kind: Kind, slot: nat, hs': seq<Handle>)
    requires c < |hs| && (hs' == hs || hs' == hs[c := WithEntry(hs[c], kind, slot, None)])
    ensures |hs'| == |hs|
    ensures forall p :: 0 <= p < |hs| ==> Relisted(hs[p], hs'[p]) && hs'[p].slot == hs[p].slot
  {
  }

  lemma UnlistHandles(s: State, t: nat, choice: Choice, s': State, c: Id, kind: Kind, slot: nat)
    requires Runs(s, t, choice, s') && (Top(s, t).pc.LobUnlist? || Top(s, t).pc.ObjectUnlist?)
    requires kind == (if Top(s, t).pc.LobUnlist? then Lob else Object)
    requires c == ListOwner(s, t) && slot == s.handles[Top(s, t).h].slot
    ensures c < |s.handles|
    ensures s'.handles == s.handles || s'.handles == s.handles[c := WithEntry(s.handles[c], kind, slot, None)]
  {
  }

  lemma UnlistRelists(s: State, t: nat, choice: Choice, s': State)
    requires Runs(s, t, choice, s') && (Top(s, t).pc.LobUnlist? || Top(s, t).pc.ObjectUnlist?)
    ensures |s'.handles| == |s.handles|
    ensures forall p :: 0 <= p < |s.handles| ==>
                Relisted(s.handles[p], s'.handles[p]) && s'.handles[p].slot == s.handles[p].slot
  {
    var kind := if Top(s, t).pc.LobUnlist? then Lob else Object;
    var slot := s.handles[Top(s, t).h].slot;
    UnlistHandles(s, t, choice, s', ListOwner(s, t), kind, slot);
    EntryGone(s.handles, ListOwner(s, t), kind, slot, s'.handles);
  }

  lemma RelistedAll(s: State, t: nat, choice: Choice, s': State)
    requires Runs(s, t, choice, s') && ChangesLists(Top(s, t))
    ensures |s'.handles| == |s.handles|
    ensures forall p :: 0 <= p < |s.handles| ==> Relisted(s.handles[p], s'.handles[p])
    ensures forall p :: 0 <= p < |s.handles| ==>
                s'.handles[p].slot == if p == Top(s, t).h then ChangedSlot(s, t, choice) else s.handles[p].slot
  {
    if Top(s, t).pc.Enlist? {
      EnlistRelists(s, t, choice, s');
    } else {
      UnlistRelists(s, t, choice, s');
    }
  }

  lemma NewPresentAfterList(s: State, t: nat, choice: Choice, s': State)
    requires Inv(s) && NewPresent(s) && Runs(s, t, choice, s') && ChangesLists(Top(s, t))
    ensures NewPresent(s')
  {
    RelistedAll(s, t, choice, s');
    forall p | 0 <= p < |s'.handles| && Tally(s'.threads, Enlisting, p) >= 1
      ensures s'.handles[p].pointer
    {
      EnlistingAfter(s, t, choice, s', p);
    }
  }

  lemma RelistedOwner(s: State, t: nat, choice: Choice, s': State, p: Id, c: Id)
    requires Runs(s, t, choice, s') && ChangesLists(Top(s, t)) && p < |s.handles|
    ensures |s'.handles| == |s.handles| && (OwnedBy(s'.handles, p, c) <==> OwnedBy(s.handles, p, c))
  {
    RelistedAll(s, t, choice, s');
  }

  // A handle other than the one put in or taken out.
  lemma OtherView(s: State, t: nat, choice: Choice, s': State, p: Id, kind: Kind, c: Id)
    requires Inv(s) && Runs(s, t, choice, s') && ChangesLists(Top(s, t)) && p < |s.handles| == |s'.handles|
    requires p != Top(s, t).h
    ensures SameView(s, s', p, kind, c)
  {
    RelistedAll(s, t, choice, s');
    RelistedOwner(s, t, choice, s', p, c);
    EnlistingAfter(s, t, choice, s', p);
    UnlistedAfter(s, t, choice, s', p);
    FreedAfter(s, t, choice, s', p);
  }

  // The handle belongs into the list once it is in, and no longer when it is out.
  lemma ListedView(s: State, t: nat, choice: Choice, s': State)
    requires Inv(s) && NewPresent(s) && Runs(s, t, choice, s') && ChangesLists(Top(s, t))
    ensures var p, c := Top(s, t).h, ListOwner(s, t);
            var kind := s.handles[p].kind;
            && HasList(kind) && OwnedBy(s.handles, p, c)
            && (Listed(s, p, kind, c) <==> !Top(s, t).pc.Enlist?) && (Listed(s', p, kind, c) <==> Top(s, t).pc.Enlist?)
  {
    OwnRefs(s, t);
    OwnerIs(s, t);
    ListedOnce(s, t, choice, s', Top(s, t).h, s.handles[Top(s, t).h].kind, ListOwner(s, t));
  }

  lemma ListedOnce(s: State, t: nat, choice: Choice, s': State, p: Id, kind: Kind, c: Id)
    requires Inv(s) && NewPresent(s) && Runs(s, t, choice, s') && ChangesLists(Top(s, t))
    requires p == Top(s, t).h && OwnedBy(s.handles, p, c) && s.handles[p].kind == kind
    ensures Listed(s, p, kind, c) <==> !Top(s, t).pc.Enlist?
    ensures Listed(s', p, kind, c) <==> Top(s, t).pc.Enlist?
  {
    RelistedAll(s, t, choice, s');
    RelistedOwner(s, t, choice, s', p, c);
    PresentChange(s, t, choice, s');
    EnlistingAfter(s, t, choice, s', p);
    Alone(s, t, Top(s, t));
  }

  lemma PresentChange(s: State, t: nat, choice: Choice, s': State)
    requires Inv(s) && NewPresent(s) && Runs(s, t, choice, s') && ChangesLists(Top(s, t))
    ensures var p := Top(s, t).h;
            p < |s.handles| == |s'.handles| && Present(s, p) && (Present(s', p) <==> Top(s, t).pc.Enlist?)
  {
    var f := Top(s, t);
    OwnRefs(s, t);
    RelistedAll(s, t, choice, s');
    Alone(s, t, f);
    if f.pc.LobUnlist? {
      UnlistedNow(s, t, choice, s');
    } else {
      UnlistedAfter(s, t, choice, s', f.h);
      FreedAfter(s, t, choice, s', f.h);
    }
  }

  lemma UnlistedNow(s: State, t: nat, choice: Choice, s': State)
    requires Runs(s, t, choice, s') && Top(s, t).pc.LobUnlist?
    ensures Tally(s'.threads, Unlisted, Top(s, t).h) >= 1
  {
    var g := Top(s, t).(pc := LobClear(Top(s, t).pc.failed));
    PlaceAfter(s, t, [g], s', Unlisted, g.h);
    assert [g][0] == g;
  }

  // Lists of other connections, and of the other kind.
  lemma ForeignView(s: State, t: nat, choice: Choice, s': State, kind: Kind, c: Id)
    requires Inv(s) && Runs(s, t, choice, s') && ChangesLists(Top(s, t)) && Top(s, t).h < |s'.handles|
    requires c != ListOwner(s, t) || kind != s.handles[Top(s, t).h].kind
    ensures SameView(s, s', Top(s, t).h, kind, c)
  {
    RelistedAll(s, t, choice, s');
    RelistedOwner(s, t, choice, s', Top(s, t).h, c);
    OwnerIs(s, t);
    if OwnedBy(s.handles, Top(s, t).h, c) {
      OneOwner(s.handles, Top(s, t).h, c, ListOwner(s, t));
    }
  }

  lemma ForeignList(s: State, t: nat, choice: Choice, s': State, kind: Kind, c: Id)
    requires Inv(s) && Runs(s, t, choice, s') && ChangesLists(Top(s, t)) && c < |s.handles|
    requires ListOk(s, c, kind) && HasList(kind) && (c != ListOwner(s, t) || kind != s.handles[Top(s, t).h].kind)
    ensures |s'.handles| == |s.handles| && ListOk(s', c, kind)
  {
    TopFrameOk(s, t);
    OwnRefs(s, t);
    ListsAfter(s, t, choice, s');
    forall p | 0 <= p < |s.handles|
      ensures SameView(s, s', p, kind, c)
    {
      if p == Top(s, t).h {
        ForeignView(s, t, choice, s', kind, c);
      } else {
        OtherView(s, t, choice, s', p, kind, c);
      }
    }
    ListKept(s, s', c, kind);
  }

  lemma OwnList(s: State, t: nat, choice: Choice, s': State, c: Id)
    requires Runs(s, t, choice, s') && ChangesLists(Top(s, t)) && FrameOk(s.handles, Top(s, t))
    requires c == ListOwner(s, t) < |s.handles| && !s.handles[c].closing && HasList(s.handles[Top(s, t).h].kind)
    ensures |s'.handles| == |s.handles|
    ensures var kind := s.handles[Top(s, t).h].kind;
            KindList(s'.handles[c], kind)
            == Put(KindList(s.handles[c], kind), ChangedSlot(s, t, choice), ChangedEntry(Top(s, t)))
  {
    ListsAfter(s, t, choice, s');
  }

  lemma OwnListEntries(s: State, t: nat, choice: Choice, s': State, c: Id, kind: Kind, i: nat)
    requires Inv(s) && NewPresent(s) && Runs(s, t, choice, s') && ChangesLists(Top(s, t))
    requires kind == s.handles[Top(s, t).h].kind && HasList(kind)
    requires c == ListOwner(s, t) < |s.handles| && ListOk(s, c, kind) && !s.handles[c].closing
    requires |s'.handles| == |s.handles| && i < |KindList(s'.handles[c], kind)|
    ensures EntryOk(s', c, kind, i)
  {
    var f, l := Top(s, t), KindList(s.handles[c], kind);
    TopFrameOk(s, t);
    OwnList(s, t, choice, s', c);
    RelistedAll(s, t, choice, s');
    ListedView(s, t, choice, s');
    PutAt(l, ChangedSlot(s, t, choice), ChangedEntry(f), i);
    if i != ChangedSlot(s, t, choice) && i < |l| && l[i].Some? {
      assert EntryOk(s, c, kind, i);
      OtherEntry(s, t, choice, s', c, kind, i);
    }
  }

  // An entry at another slot is about another handle.
  lemma OtherEntry(s: State, t: nat, choice: Choice, s': State, c: Id, kind: Kind, i: nat)
    requires Inv(s) && NewPresent(s) && Runs(s, t, choice, s') && ChangesLists(Top(s, t))
    requires kind == s.handles[Top(s, t).h].kind && c == ListOwner(s, t) < |s.handles| && ListOk(s, c, kind)
    requires |s'.handles| == |s.handles| && i < |KindList(s.handles[c], kind)| && i != ChangedSlot(s, t, choice)
    requires KindList(s.handles[c], kind)[i].Some?
    ensures var p := KindList(s.handles[c], kind)[i].value;
            p < |s.handles| && p != Top(s, t).h && SameView(s, s', p, kind, c)
  {
    var p := KindList(s.handles[c], kind)[i].value;
    assert EntryOk(s, c, kind, i);
    ListedView(s, t, choice, s');
    OtherView(s, t, choice, s', p, kind, c);
  }

  // The entry of a handle that stays in the list is not the one that changes.
  lemma OtherMember(s: State, t: nat, choice: Choice, s': State, c: Id, kind: Kind, p: Id)
    requires Inv(s) && NewPresent(s) && Runs(s, t, choice, s') && ChangesLists(Top(s, t))
    requires kind == s.handles[Top(s, t).h].kind && HasList(kind)
    requires c == ListOwner(s, t) < |s.handles| && ListOk(s, c, kind)
    requires |s'.handles| == |s.handles| && p < |s'.handles| && Listed(s', p, kind, c) && p != Top(s, t).h
    ensures InList(s, c, kind, p) && s'.handles[p].slot == s.handles[p].slot != ChangedSlot(s, t, choice)
  {
    OtherView(s, t, choice, s', p, kind, c);
    assert InList(s, c, kind, p);
    if !Top(s, t).pc.Enlist? {
      ListedView(s, t, choice, s');
      assert InList(s, c, kind, Top(s, t).h);
    }
  }

  lemma OwnListMembers(s: State, t: nat, choice: Choice, s': State, c: Id, kind: Kind, p: Id)
    requires Inv(s) && NewPresent(s) && Runs(s, t, choice, s') && ChangesLists(Top(s, t))
    requires kind == s.handles[Top(s, t).h].kind && HasList(kind)
    requires c == ListOwner(s, t) < |s.handles| && ListOk(s, c, kind) && !s.handles[c].closing
    requires |s'.handles| == |s.handles| && p < |s'.handles| && Listed(s', p, kind, c)
    ensures InList(s', c, kind, p)
  {
    var f, l := Top(s, t), KindList(s.handles[c], kind);
    var i, e := ChangedSlot(s, t, choice), ChangedEntry(f);
    TopFrameOk(s, t);
    OwnList(s, t, choice, s', c);
    if p != f.h {
      OtherMember(s, t, choice, s', c, kind, p);
    } else {
      ListedView(s, t, choice, s');
      RelistedAll(s, t, choice, s');
    }
    PutLong(l, i, e);
    PutAt(l, i, e, s'.handles[p].slot);
  }

  lemma OwnListKept(s: State, t: nat, choice: Choice, s': State, c: Id, kind: Kind)
    requires Inv(s) && NewPresent(s) && Runs(s, t, choice, s') && ChangesLists(Top(s, t))
    requires kind == s.handles[Top(s, t).h].kind && HasList(kind)
    requires c == ListOwner(s, t) < |s.handles| == |s'.handles| && ListOk(s, c, kind) && !s.handles[c].closing
    ensures ListOk(s', c, kind)
  {
    forall i | 0 <= i < |KindList(s'.handles[c], kind)|
      ensures EntryOk(s', c, kind, i)
    {
      OwnListEntries(s, t, choice, s', c, kind, i);
    }
    forall p | 0 <= p < |s'.handles| && Listed(s', p, kind, c)
      ensures InList(s', c, kind, p)
    {
      OwnListMembers(s, t, choice, s', c, kind, p);
    }
  }

  lemma NotClosing(s: State, c: Id)
    requires Inv(s) && NeverClosed(s, c)
    ensures !s.handles[c].closing
  {
    assert HandleAt(s, c);
  }

  lemma ListStepKeepsList(s: State, t: nat, choice: Choice, s': State, c: Id, kind: Kind)
    requires Inv(s) && NewPresent(s) && Runs(s, t, choice, s') && ChangesLists(Top(s, t))
    requires NeverClosed(s, c) && HasList(kind) && ListOk(s, c, kind)
    ensures c < |s'.handles| && ListOk(s', c, kind)
  {
    RelistedAll(s, t, choice, s');
    if c == ListOwner(s, t) && kind == s.handles[Top(s, t).h].kind {
      NotClosing(s, c);
      OwnListKept(s, t, choice, s', c, kind);
    } else {
      ForeignList(s, t, choice, s', kind, c);
    }
  }

  lemma ListStepKeeps(s: State, t: nat, choice: Choice, s': State)
    requires Inv(s) && OpenOk(s) && Runs(s, t, choice, s') && ChangesLists(Top(s, t))
    ensures OpenOk(s')
  {
    NewPresentAfterList(s, t, choice, s');
    RelistedAll(s, t, choice, s');
    forall c | 0 <= c < |s'.handles| && NeverClosed(s', c)
      ensures ListOk(s', c, Lob) && ListOk(s', c, Object)
    {
      assert Relisted(s.handles[c], s'.handles[c]);
      ListStepKeepsList(s, t, choice, s', c, Lob);
      ListStepKeepsList(s, t, choice, s', c, Object);
    }
  }

  // ---- every step ----

  lemma CallViews(s: State, l: Label, s': State, p: Id, kind: Kind, c: Id)
    requires Inv(s) && Enabled(s, l) && !l.Run? && s' == Next(s, l) && p < |s.handles| <= |s'.handles| && c < |s.handles|
    requires CallKeepsPlaces(s, s')
    ensures SameView(s, s', p, kind, c)
  {
    assert SameThreadsAt(s.threads, s'.threads, p);
    OwnerKept(s.handles, s'.handles, p, c);
  }

  lemma NewcomerNotListed(s: State, l: Label, s': State)
    requires Inv(s) && Enabled(s, l) && !l.Run? && s' == Next(s, l)
    ensures forall p, kind, c :: |s.handles| <= p < |s'.handles| ==> !Listed(s', p, kind, c)
  {
    CallHandles(s, l, s');
    if l.Create? {
      var g := Frame(|s.handles|, false, true, Enlist);
      if l.kind == Lob || (l.kind == Object && |l.parents| == 1) {
        TallyUpdate(s.threads, l.t, s'.threads[l.t], Enlisting, g.h);
        assert s'.threads[l.t].stack == [g] && [g][0] == g;
      }
    }
  }

  lemma CallKeepsList(s: State, l: Label, s': State, c: Id, kind: Kind)
    requires Inv(s) && Enabled(s, l) && !l.Run? && s' == Next(s, l) && c < |s.handles| && ListOk(s, c, kind)
    ensures c < |s'.handles| && ListOk(s', c, kind)
  {
    CallPlaces(s, l, s');
    CallHandles(s, l, s');
    NewcomerNotListed(s, l, s');
    forall p | 0 <= p < |s.handles|
      ensures SameView(s, s', p, kind, c)
    {
      CallViews(s, l, s', p, kind, c);
    }
    ListKept(s, s', c, kind);
  }

  // Nothing belongs to a connection that did not exist when it was created.
  lemma NothingYetOwned(s: State, l: Label, s': State, p: Id, kind: Kind, c: Id)
    requires Inv(s) && Enabled(s, l) && !l.Run? && s' == Next(s, l) && p < |s'.handles| && |s.handles| <= c
    ensures !Listed(s', p, kind, c)
  {
    NewcomerNotListed(s, l, s');
    if p < |s.handles| && OwnedBy(s'.handles, p, c) {
      CallPlaces(s, l, s');
      OwnerInRange(s.handles, s'.handles, p, c);
    }
  }

  lemma EmptyListOk(s: State, l: Label, s': State, c: Id, kind: Kind)
    requires Inv(s) && Enabled(s, l) && !l.Run? && s' == Next(s, l) && |s.handles| <= c < |s'.handles|
    ensures ListOk(s', c, kind)
  {
    CallHandles(s, l, s');
    forall p | 0 <= p < |s'.handles|
      ensures !Listed(s', p, kind, c)
    {
      NothingYetOwned(s, l, s', p, kind, c);
    }
  }

  lemma CallKeepsPresent(s: State, l: Label, s': State)
    requires Inv(s) && NewPresent(s) && Enabled(s, l) && !l.Run? && s' == Next(s, l)
    ensures NewPresent(s')
  {
    CallPlaces(s, l, s');
    CallHandles(s, l, s');
    forall p | 0 <= p < |s'.handles| && Tally(s'.threads, Enlisting, p) >= 1
      ensures s'.handles[p].pointer
    {
      if p < |s.handles| {
        assert SameThreadsAt(s.threads, s'.threads, p);
      } else if !(l.kind == Lob || (l.kind == Object && |l.parents| == 1)) {
        NoneEnlisting(s, l, s');
      }
    }
  }

  // Only LOBs and objects are put into lists when they are new.
  lemma NoneEnlisting(s: State, l: Label, s': State)
    requires Inv(s) && Enabled(s, l) && l.Create? && s' == Next(s, l)
    requires !(l.kind == Lob || (l.kind == Object && |l.parents| == 1))
    ensures Tally(s'.threads, Enlisting, |s.handles|) == 0
  {
    assert Fresh(s, |s.handles|);
    StackChange(s.threads, l.t, s'.threads[l.t], |s.handles|);
  }

  lemma NextKeepsOpen(s: State, l: Label)
    requires FullInv(s) && OwnersOk(s) && OpenOk(s) && Enabled(s, l)
    ensures OpenOk(Next(s, l))
  {
    var s' := Next(s, l);
    if l.Run? {
      if ChangesLists(Top(s, l.t)) {
        ListStepKeeps(s, l.t, l.choice, s');
      } else {
        OtherStepKeeps(s, l.t, l.choice, s');
      }
    } else {
      CallHandles(s, l, s');
      CallKeepsPresent(s, l, s');
      forall c | 0 <= c < |s'.handles| && NeverClosed(s', c)
        ensures ListOk(s', c, Lob) && ListOk(s', c, Object)
      {
        if c < |s.handles| {
          CallKeepsList(s, l, s', c, Lob);
          CallKeepsList(s, l, s', c, Object);
        } else {
          EmptyListOk(s, l, s', c, Lob);
          EmptyListOk(s, l, s', c, Object);
        }
      }
    }
  }

  // ---- the end of a connection ----

  lemma GoneNumbers(r: Handle, n: Numbers, refsTo: int)
    requires HandleOk(r, n, refsTo) && Coherent(n) && refsTo >= 0 && r.refs != r.parents
    requires r.kind == Lob || (r.kind == Object && !Dependent(r))
    ensures !r.pointer && (r.kind == Object ==> n.freed == 0)
  {
  }

  // What belongs into a list holds its connection.
  lemma ListedHolds(s: State, p: Id, kind: Kind, c: Id)
    requires Inv(s) && Listed(s, p, kind, c)
    ensures s.handles[c].count >= 1
  {
    if s.handles[p].refs != s.handles[p].parents {
      assert HandleAt(s, p);
      TallyCoherent(s.threads, p);
      GoneNumbers(s.handles[p], NumbersAt(s.threads, p), RefsTo(s.handles, p));
    } else {
      OwnerIsAlive(s, p, c);
    }
  }

  // When the last reference to a connection goes, its lists are empty.
  lemma ListEmptyAtTheEnd(s: State, c: Id, kind: Kind)
    requires Inv(s) && c < |s.handles| && ListOk(s, c, kind) && s.handles[c].count == 0
    ensures forall i :: 0 <= i < |KindList(s.handles[c], kind)| ==> KindList(s.handles[c], kind)[i] == None
  {
    forall i | 0 <= i < |KindList(s.handles[c], kind)|
      ensures KindList(s.handles[c], kind)[i] == None
    {
      assert EntryOk(s, c, kind, i);
      if KindList(s.handles[c], kind)[i].Some? {
        ListedHolds(s, KindList(s.handles[c], kind)[i].value, kind, c);
      }
    }
  }
}
