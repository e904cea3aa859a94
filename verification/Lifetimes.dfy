/** Handles in threaded mode: the steps by which threads create, share, close and release handles,
    interleaved in any order.

    A step is what happens between two acquisitions of the environment's mutex, or an access
    to memory that other threads can see. Identifiers of handles are never reissued. */
module Lifetimes {
  import opened Wrappers

  type Id = nat

  datatype Kind = SessionPool | Connection | ObjectType | Lob | Object

  // parents are the references a handle is created with, refs those it still holds. The OCI
  // resource of a LOB is its locator, of an object its instance, of a connection its session:
  // pointer tells whether the handle points to it, inOci whether OCI still has it. The
  // counters tell how often the resource was freed and how often the free procedure was called.
  datatype Handle = Handle(
    kind: Kind, parents: seq<Id>, refs: seq<Id>,
    count: int, checkInt: bool, closing: bool,
    pointer: bool, inOci: bool, resourceFrees: nat, freeCalls: nat, deallocated: bool,
    slot: nat, everClosed: bool, objects: seq<Option<Id>>, lobs: seq<Option<Id>>)

  // Where a thread stands in a call on a handle.
  datatype Pc =
    | Finish          // give the reference back to the caller, or drop it
    | FreeStart       // the free procedure
    | ReleaseRefs     // drop the references held by a handle that is being freed
    | Deallocate
    | Enlist          // put a new handle into its connection's list
    | CheckOpen       // the checks in front of a close by the user
    | CloseTest       // test and set the closing flag of a LOB or an object
    | CloseFree       // free its OCI resource
    | LobUnlist(failed: bool)
    | LobClear(failed: bool)
    | LobReset
    | ObjectUnlist
    | ObjectReset
    | ConnTest        // test and set the closing flag of a connection
    | Walk(list: nat, pos: nat)
    | WalkCheck(list: nat, pos: nat, entry: Id)
    | EndSession
    | ConnReset

  // A call in progress: either the thread holds a reference to the handle, or it runs the free
  // procedure of a handle without references.
  datatype Frame = Frame(h: Id, freeing: bool, keep: bool, pc: Pc)

  datatype Thread = Thread(owned: multiset<Id>, stack: seq<Frame>)

  datatype State = State(handles: seq<Handle>, threads: seq<Thread>)

  // The outcome of OCI calls, and the slot a handle list gives out. The free procedures do not check for
  // errors.
  datatype Choice = Choice(ok: bool, indicatorOk: bool, slot: nat)

  datatype Label =
    | ShareRef(t: nat, h: Id, to: nat)                 // addRef, for oneself or for another thread
    | CallRelease(t: nat, h: Id)
    | CallClose(t: nat, h: Id)
    | Create(t: nat, kind: Kind, parents: seq<Id>)
    | Run(t: nat, choice: Choice)                      // the next step of the call in progress

  // ---- handles ----

  function New(kind: Kind, parents: seq<Id>): Handle {
    var resource := kind == Connection || kind == Lob || kind == Object;
    Handle(kind, parents, parents, 1, true, false, resource, resource, 0, 0, false, 0, false, [], [])
  }

  predicate KindIs(hs: seq<Handle>, i: Id, kind: Kind) {
    i < |hs| && hs[i].kind == kind
  }

  // The references each kind of handle is created with.
  predicate ParentsOk(hs: seq<Handle>, kind: Kind, ps: seq<Id>) {
    || (kind == SessionPool && ps == [])
    || (kind == Connection && (ps == [] || (|ps| == 1 && KindIs(hs, ps[0], SessionPool))))
    || (kind == ObjectType && 1 <= |ps| <= 2 && KindIs(hs, ps[0], Connection)
        && (|ps| == 2 ==> KindIs(hs, ps[1], ObjectType)))
    || (kind == Lob && |ps| == 1 && KindIs(hs, ps[0], Connection))
    || (kind == Object && 1 <= |ps| <= 2 && KindIs(hs, ps[0], ObjectType)
        && (|ps| == 2 ==> KindIs(hs, ps[1], Object)))
  }

  predicate Dependent(r: Handle) {
    r.kind == Object && |r.parents| == 2
  }

  function Bump(hs: seq<Handle>, ps: seq<Id>): (r: seq<Handle>)
    requires forall i :: 0 <= i < |ps| ==> ps[i] < |hs|
    ensures |r| == |hs|
    decreases |ps|
  {
    if ps == [] then hs else Bump(hs[ps[0] := hs[ps[0]].(count := hs[ps[0]].count + 1)], ps[1..])
  }

  // The connection that a LOB, an object or an object type belongs to, if the way to it is intact.
  function ConnectionOf(hs: seq<Handle>, h: Id): Option<Id> {
    if h < |hs| && (hs[h].kind == Lob || hs[h].kind == ObjectType) && hs[h].refs != [] then Some(hs[h].refs[0])
    else if h < |hs| && hs[h].kind == Object && hs[h].refs != [] && KindIs(hs, hs[h].refs[0], ObjectType)
            && hs[hs[h].refs[0]].refs != [] then Some(hs[hs[h].refs[0]].refs[0])
    else None
  }

  predicate ConnectionThere(hs: seq<Handle>, h: Id) {
    ConnectionOf(hs, h).Some? && ConnectionOf(hs, h).value < |hs|
  }

  function ListOf(r: Handle, list: nat): seq<Option<Id>> {
    if list == 0 then r.objects else r.lobs
  }

  function Put(l: seq<Option<Id>>, i: nat, entry: Option<Id>): seq<Option<Id>> {
    if i < |l| then l[i := entry]
    else l + seq(i - |l|, _ => None) + [entry]
  }

  function WithEntry(r: Handle, kind: Kind, i: nat, entry: Option<Id>): Handle {
    if kind == Lob then r.(lobs := Put(r.lobs, i, entry)) else r.(objects := Put(r.objects, i, entry))
  }

  // ---- calls ----

  predicate Idle(s: State, t: nat) {
    t < |s.threads| && s.threads[t].stack == []
  }

  predicate Owns(s: State, t: nat, h: Id) {
    t < |s.threads| && h < |s.handles| && s.threads[t].owned[h] > 0
  }

  predicate Enabled(s: State, l: Label) {
    match l
    case ShareRef(t, h, to) => Idle(s, t) && Owns(s, t, h) && to < |s.threads|
    case CallRelease(t, h) => Idle(s, t) && Owns(s, t, h)
    case CallClose(t, h) => Idle(s, t) && Owns(s, t, h) && (s.handles[h].kind == Lob || s.handles[h].kind == Connection)
    case Create(t, kind, parents) =>
      && Idle(s, t) && ParentsOk(s.handles, kind, parents)
      && forall i :: 0 <= i < |parents| ==> Owns(s, t, parents[i])
    case Run(t, choice) => t < |s.threads| && s.threads[t].stack != [] && RunEnabled(s, s.threads[t].stack[0], choice)
  }

  // What a step dereferences is there, and a list gives out only free slots. The check and the close of a LOB
  // ask its connection whether it is still connected.
  predicate RunEnabled(s: State, f: Frame, choice: Choice) {
    f.h < |s.handles| &&
    match f.pc
    case Enlist =>
      && ConnectionThere(s.handles, f.h)
      && var l := ListOf(s.handles[ConnectionOf(s.handles, f.h).value], if s.handles[f.h].kind == Lob then 1 else 0);
         choice.slot < |l| ==> l[choice.slot] == None
    case CheckOpen => s.handles[f.h].kind == Lob && s.handles[f.h].pointer ==> ConnectionThere(s.handles, f.h)
    case CloseFree => s.handles[f.h].kind == Lob && s.handles[f.h].pointer ==> ConnectionThere(s.handles, f.h)
    case LobUnlist(_) => ConnectionThere(s.handles, f.h)
    case ObjectUnlist => ConnectionThere(s.handles, f.h)
    case WalkCheck(_, _, p) => p < |s.handles|
    case ReleaseRefs => s.handles[f.h].refs != [] ==> s.handles[f.h].refs[0] < |s.handles|
    case _ => true
  }

  // The frames on top of a thread's stack are replaced.
  function SetTop(s: State, t: nat, handles: seq<Handle>, top: seq<Frame>): State
    requires t < |s.threads| && s.threads[t].stack != []
  {
    var th := s.threads[t];
    State(handles, s.threads[t := th.(stack := top + th.stack[1..])])
  }

  // What follows the close of a LOB, an object or a connection.
  function AfterClose(f: Frame): Frame {
    f.(pc := if f.freeing then ReleaseRefs else Finish)
  }

  // A close that checks for errors gives up when a call to OCI or a close that it makes fails.
  predicate GivesUp(f: Frame, choice: Choice) {
    !choice.ok && !f.freeing
  }

  function RunStep(s: State, t: nat, choice: Choice): State
    requires t < |s.threads| && s.threads[t].stack != [] && RunEnabled(s, s.threads[t].stack[0], choice)
  {
    var th := s.threads[t];
    var f := th.stack[0];
    var hs := s.handles;
    var r := hs[f.h];
    match f.pc
    case Finish =>
      if f.keep then State(hs, s.threads[t := Thread(th.owned + multiset{f.h}, th.stack[1..])])
      else if r.count - 1 == 0 then
        SetTop(s, t, hs[f.h := r.(count := 0, checkInt := false, freeCalls := r.freeCalls + 1)],
               [Frame(f.h, true, false, FreeStart)])
      else SetTop(s, t, hs[f.h := r.(count := r.count - 1)], [])
    case FreeStart =>
      (match r.kind
       case SessionPool => SetTop(s, t, hs, [f.(pc := ReleaseRefs)])
       case ObjectType => SetTop(s, t, hs, [f.(pc := ReleaseRefs)])
       case Connection => SetTop(s, t, hs, [f.(pc := if r.pointer then Walk(0, 0) else ReleaseRefs)])
       case Lob => SetTop(s, t, hs, [f.(pc := CloseTest)])
       case Object => SetTop(s, t, hs, [f.(pc := CloseTest)]))
    case ReleaseRefs =>
      if r.refs == [] then SetTop(s, t, hs, [f.(pc := Deallocate)])
      else SetTop(s, t, hs[f.h := r.(refs := r.refs[1..])], [Frame(r.refs[0], false, false, Finish), f])
    case Deallocate => SetTop(s, t, hs[f.h := r.(deallocated := true)], [])
    case Enlist =>
      var c := ConnectionOf(hs, f.h).value;
      var hs1 := hs[f.h := r.(slot := choice.slot)];
      SetTop(s, t, hs1[c := WithEntry(hs1[c], r.kind, choice.slot, Some(f.h))], [f.(pc := Finish)])
    case CheckOpen =>
      if !choice.ok || !r.pointer || (r.kind == Connection && r.closing) then SetTop(s, t, hs, [f.(pc := Finish)])
      else SetTop(s, t, hs, [f.(pc := if r.kind == Lob then CloseTest else ConnTest)])
    case CloseTest =>
      SetTop(s, t, hs[f.h := r.(closing := true)], [if r.closing then AfterClose(f) else f.(pc := CloseFree)])
    case CloseFree =>
      if !r.pointer || Dependent(r) then SetTop(s, t, hs, [AfterClose(f)])
      else if r.kind == Lob then
        SetTop(s, t, hs[f.h := r.(inOci := false, resourceFrees := r.resourceFrees + 1)],
               [f.(pc := LobUnlist(!choice.ok))])
      else if GivesUp(f, choice) then SetTop(s, t, hs, [f.(pc := ObjectReset)])
      else
        SetTop(s, t, hs[f.h := r.(inOci := false, pointer := false, resourceFrees := r.resourceFrees + 1)],
               [f.(pc := if choice.indicatorOk || f.freeing then ObjectUnlist else ObjectReset)])
    case LobUnlist(failed) =>
      var c := ConnectionOf(hs, f.h).value;
      var hs1 := if hs[c].closing then hs else hs[c := WithEntry(hs[c], Lob, r.slot, None)];
      SetTop(s, t, hs1, [f.(pc := LobClear(failed))])
    case LobClear(failed) =>
      SetTop(s, t, hs[f.h := r.(pointer := false)], [if failed then f.(pc := LobReset) else AfterClose(f)])
    case LobReset => SetTop(s, t, hs[f.h := r.(closing := false)], [AfterClose(f)])
    case ObjectUnlist =>
      var c := ConnectionOf(hs, f.h).value;
      var hs1 := if hs[c].closing then hs else hs[c := WithEntry(hs[c], Object, r.slot, None)];
      SetTop(s, t, hs1, [AfterClose(f)])
    case ObjectReset => SetTop(s, t, hs[f.h := r.(closing := false)], [AfterClose(f)])
    case ConnTest =>
      if r.closing then SetTop(s, t, hs, [f.(pc := Finish)])
      else SetTop(s, t, hs[f.h := r.(closing := true, everClosed := true)], [f.(pc := Walk(0, 0))])
    case Walk(list, pos) =>
      if GivesUp(f, choice) then SetTop(s, t, hs, [f.(pc := ConnReset)])
      else if pos < |ListOf(r, list)| then
        SetTop(s, t, hs, [f.(pc := match ListOf(r, list)[pos]
                                   case None => Walk(list, pos + 1)
                                   case Some(p) => WalkCheck(list, pos, p))])
      else SetTop(s, t, hs, [f.(pc := if list == 0 then Walk(1, 0) else EndSession)])
    case WalkCheck(list, pos, p) =>
      if hs[p].checkInt then
        SetTop(s, t, hs[p := hs[p].(count := hs[p].count + 1)],
               [Frame(p, false, false, CloseTest), f.(pc := Walk(list, pos + 1))])
      else SetTop(s, t, hs, [f.(pc := Walk(list, pos + 1))])
    case EndSession =>
      if GivesUp(f, choice) then SetTop(s, t, hs, [f.(pc := ConnReset)])
      else
        SetTop(s, t, hs[f.h := r.(pointer := false, inOci := false, resourceFrees := r.resourceFrees + 1)],
               [AfterClose(f)])
    case ConnReset => SetTop(s, t, hs[f.h := r.(closing := false)], [f.(pc := Finish)])
  }

  function Next(s: State, l: Label): State
    requires Enabled(s, l)
  {
    match l
    case ShareRef(t, h, to) =>
      var th := s.threads[to];
      State(Bump(s.handles, [h]), s.threads[to := th.(owned := th.owned + multiset{h})])
    case CallRelease(t, h) =>
      State(s.handles, s.threads[t := Thread(s.threads[t].owned - multiset{h}, [Frame(h, false, false, Finish)])])
    case CallClose(t, h) =>
      State(s.handles, s.threads[t := Thread(s.threads[t].owned - multiset{h}, [Frame(h, false, true, CheckOpen)])])
    case Create(t, kind, parents) =>
      var r := New(kind, parents);
      var pc := if kind == Lob || (kind == Object && |parents| == 1) then Enlist else Finish;
      State(Bump(s.handles, parents) + [r],
            s.threads[t := s.threads[t].(stack := [Frame(|s.handles|, false, true, pc)])])
    case Run(t, choice) => RunStep(s, t, choice)
  }
}
