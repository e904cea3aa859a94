/** The pool of reusable handles: a growing ring buffer, the queue it represents, and what holds
    over every run of its clients. */
module HandlePool {

  type Handle = int

  const NULL: Handle := 0
  const GROWTH := 8

  // ---- the ring ----

  // The slots from position a up to position r, going around at the end.
  function Window(s: seq<Handle>, a: nat, r: nat): (w: seq<Handle>)
    requires a < |s| && r < |s|
    ensures |w| == if a <= r then r - a else |s| - a + r
  {
    if a <= r then s[a..r] else s[a..] + s[..r]
  }

  function Next(pos: nat, n: nat): (next: nat)
    requires pos < n
    ensures next < n
  {
    if pos + 1 == n then 0 else pos + 1
  }

  lemma WindowTake(s: seq<Handle>, a: nat, r: nat)
    requires a < |s| && r < |s| && a != r
    ensures Window(s, a, r) == [s[a]] + Window(s[a := NULL], Next(a, |s|), r)
  {
    var t := s[a := NULL];
    if a < r {
      assert s[a..r] == [s[a]] + t[a + 1..r];
    } else if a + 1 == |s| {
      assert s[a..] == [s[a]] && t[..r] == s[..r];
    } else {
      assert s[a..] == [s[a]] + t[a + 1..] && t[..r] == s[..r];
    }
  }

  // Filling the last free slot makes the ring look empty.
  lemma WindowPut(s: seq<Handle>, a: nat, r: nat, h: Handle)
    requires a < |s| && r < |s|
    ensures Window(s[r := h], a, Next(r, |s|))
            == if |Window(s, a, r)| + 1 == |s| then [] else Window(s, a, r) + [h]
  {
    var t := s[r := h];
    if a <= r {
      assert t[a..r + 1] == s[a..r] + [h];
      assert r + 1 == |s| ==> t[a..] == t[a..r + 1] && t[..0] == [];
    } else {
      assert t[..r + 1] == s[..r] + [h] && t[a..] == s[a..];
      assert s[a..] + (s[..r] + [h]) == s[a..] + s[..r] + [h];
    }
  }

  // ---- the queue ----

  datatype Queue = Queue(idle: seq<Handle>, numSlots: nat, numUsedSlots: nat)

  datatype Acquired = Acquired(ok: bool, handle: Handle, queue: Queue)

  // The longest-idle handle; without one, another slot is reserved, growing the pool when all
  // slots are in use and memory is available.
  function AfterAcquire(q: Queue, memory: bool): Acquired {
    if q.idle != [] then Acquired(true, q.idle[0], q.(idle := q.idle[1..]))
    else
      var used := q.numUsedSlots + 1;
      if used <= q.numSlots then Acquired(true, NULL, q.(numUsedSlots := used))
      else if memory then Acquired(true, NULL, q.(numUsedSlots := used, numSlots := q.numSlots + GROWTH))
      else Acquired(false, NULL, q.(numUsedSlots := used))
  }

  // A handle that fills the last slot takes all idle handles with it.
  function AfterRelease(q: Queue, h: Handle): Queue {
    q.(idle := if |q.idle| + 1 == q.numSlots then [] else q.idle + [h])
  }

  class Pool {
    var handles: array<Handle>
    var numSlots: nat
    var numUsedSlots: nat
    var acquirePos: nat
    var releasePos: nat

    ghost predicate Valid()
      reads this, handles
    {
      handles.Length == numSlots && acquirePos < numSlots && releasePos < numSlots
    }

    ghost function View(): Queue
      requires Valid()
      reads this, handles
    {
      Queue(Window(handles[..], acquirePos, releasePos), numSlots, numUsedSlots)
    }

    constructor ()
      ensures Valid() && View() == Queue([], 8, 0) && fresh(handles)
    {
      handles := new Handle[GROWTH](_ => NULL);
      numSlots, numUsedSlots, acquirePos, releasePos := GROWTH, 0, 0, 0;
    }

    method Acquire(memory: bool) returns (ok: bool, handle: Handle)
      requires Valid()
      modifies this, handles
      ensures Valid() && (handles == old(handles) || fresh(handles))
      ensures AfterAcquire(old(View()), memory) == Acquired(ok, handle, View())
      ensures !ok <==> |old(View()).idle| == 0 && old(numUsedSlots) >= old(numSlots) && !memory
      ensures handle == if |old(View()).idle| > 0 then old(View()).idle[0] else NULL
      ensures numUsedSlots == old(numUsedSlots) + if |old(View()).idle| > 0 then 0 else 1
      ensures ok ==>
                numSlots == old(numSlots) + if |old(View()).idle| == 0 && old(numUsedSlots) >= old(numSlots) then 8 else 0
    {
      if acquirePos != releasePos {
        WindowTake(handles[..], acquirePos, releasePos);
        handle := handles[acquirePos];
        ghost var s := handles[..];
        handles[acquirePos] := NULL;
        assert handles[..] == s[acquirePos := NULL];
        acquirePos := acquirePos + 1;
        if acquirePos == numSlots {
          acquirePos := 0;
        }
        return true, handle;
      }
      assert View().idle == [];
      handle := NULL;
      numUsedSlots := numUsedSlots + 1;
      if numUsedSlots > numSlots {
        if !memory {
          return false, handle;
        }
        Grow();
      }
      return true, handle;
    }

    // The slots are copied to a larger array; the ring is empty, so the positions stay right.
    method Grow()
      requires Valid() && acquirePos == releasePos
      modifies this
      ensures Valid() && fresh(handles)
      ensures View() == Queue([], old(numSlots) + 8, numUsedSlots) && numUsedSlots == old(numUsedSlots)
    {
      var n := numSlots + GROWTH;
      var tempHandles := new Handle[n](_ => NULL);
      forall i | 0 <= i < numSlots {
        tempHandles[i] := handles[i];
      }
      handles := tempHandles;
      numSlots := n;
    }

    method Release(handle: Handle)
      requires Valid()
      modifies this, handles
      ensures Valid() && handles == old(handles)
      ensures View() == AfterRelease(old(View()), handle)
    {
      ghost var s, r := handles[..], releasePos;
      WindowPut(s, acquirePos, r, handle);
      handles[releasePos] := handle;
      assert handles[..] == s[r := handle];
      releasePos := releasePos + 1;
      if releasePos == numSlots {
        releasePos := 0;
      }
      assert releasePos == Next(r, numSlots);
    }
  }

  // ---- runs of the clients ----

  // Every handle the pool has ever been given: those its clients hold, the idle ones in the
  // queue and the lost ones, dropped from the ring without being handed out. A client that was
  // given no handle creates one, or fails to. The order of all releases and of all handles
  // handed out again is kept.
  datatype Run = Run(queue: Queue, held: multiset<Handle>, lost: multiset<Handle>, creating: nat,
                     released: seq<Handle>, reused: seq<Handle>)

  datatype Action = AcquireAction(memory: bool) | CreateAction(handle: Handle) | FailAction | ReleaseAction(handle: Handle)

  function Start(): Run {
    Run(Queue([], GROWTH, 0), multiset{}, multiset{}, 0, [], [])
  }

  ghost function Everything(r: Run): multiset<Handle> {
    r.held + multiset(r.queue.idle) + r.lost
  }

  // Clients release only handles they hold, and create only new handles.
  ghost predicate Allowed(r: Run, a: Action) {
    match a
    case AcquireAction(_) => true
    case CreateAction(h) => r.creating > 0 && h != NULL && h !in Everything(r)
    case FailAction => r.creating > 0
    case ReleaseAction(h) => h in r.held
  }

  ghost function Step(r: Run, a: Action): Run
    requires Allowed(r, a)
  {
    match a
    case AcquireAction(memory) =>
      var result := AfterAcquire(r.queue, memory);
      if result.handle != NULL then
        r.(queue := result.queue, held := r.held + multiset{result.handle}, reused := r.reused + [result.handle])
      else if result.ok then r.(queue := result.queue, creating := r.creating + 1)
      else r.(queue := result.queue)
    case CreateAction(h) => r.(held := r.held + multiset{h}, creating := r.creating - 1)
    case FailAction => r.(creating := r.creating - 1)
    case ReleaseAction(h) =>
      var queue := AfterRelease(r.queue, h);
      var dropped := if queue.idle == [] then multiset(r.queue.idle) + multiset{h} else multiset{};
      r.(queue := queue, held := r.held - multiset{h}, lost := r.lost + dropped, released := r.released + [h])
  }

  ghost predicate AllAllowed(r: Run, actions: seq<Action>)
    decreases |actions|
  {
    actions == [] || (Allowed(r, actions[0]) && AllAllowed(Step(r, actions[0]), actions[1..]))
  }

  ghost function After(r: Run, actions: seq<Action>): Run
    requires AllAllowed(r, actions)
    decreases |actions|
  {
    if actions == [] then r else After(Step(r, actions[0]), actions[1..])
  }

  // No handle twice, none of them NULL, and the queue never fills the ring.
  ghost predicate Exclusive(r: Run) {
    && (forall h :: Everything(r)[h] <= 1)
    && Everything(r)[NULL] == 0
    && |r.queue.idle| < r.queue.numSlots
  }

  lemma Reuse(r: Run)
    requires Exclusive(r) && r.queue.idle != []
    ensures var idle := r.queue.idle;
            && idle[0] != NULL
            && (r.held + multiset{idle[0]}) + multiset(idle[1..]) + r.lost == Everything(r)
  {
    var idle := r.queue.idle;
    assert idle == [idle[0]] + idle[1..];
    assert idle[0] in Everything(r);
  }

  lemma GiveBack(r: Run, h: Handle)
    requires Exclusive(r) && h in r.held
    ensures multiset(r.queue.idle + [h]) == multiset(r.queue.idle) + multiset{h}
    ensures (r.held - multiset{h}) + multiset{h} == r.held
    ensures Everything(Step(r, ReleaseAction(h))) == Everything(r)
  {
    var rest := r.held - multiset{h};
    assert rest + multiset{h} == r.held;
    assert multiset(r.queue.idle + [h]) == multiset(r.queue.idle) + multiset{h};
  }

  lemma EverythingKept(r: Run, a: Action)
    requires Exclusive(r) && Allowed(r, a)
    ensures Everything(Step(r, a)) == Everything(r) + if a.CreateAction? then multiset{a.handle} else multiset{}
  {
    match a
    case AcquireAction(memory) =>
      if r.queue.idle != [] {
        Reuse(r);
        assert AfterAcquire(r.queue, memory).handle == r.queue.idle[0];
      } else {
        assert Everything(Step(r, a)) == Everything(r);
      }
    case CreateAction(h) =>
      assert (r.held + multiset{h}) + multiset(r.queue.idle) + r.lost == Everything(r) + multiset{h};
    case FailAction =>
    case ReleaseAction(h) =>
      GiveBack(r, h);
  }

  lemma ExclusiveStep(r: Run, a: Action)
    requires Exclusive(r) && Allowed(r, a)
    ensures Exclusive(Step(r, a))
    ensures Everything(Step(r, a)) == Everything(r) + if a.CreateAction? then multiset{a.handle} else multiset{}
  {
    EverythingKept(r, a);
  }

  // However full the pool gets, no handle is ever held twice, or held while it is idle, and none
  // disappears: every handle that was created is held, idle or lost.
  lemma {:induction false} NeverHeldTwice(r: Run, actions: seq<Action>)
    requires Exclusive(r) && AllAllowed(r, actions)
    ensures Exclusive(After(r, actions))
    ensures forall h :: After(r, actions).held[h] + multiset(After(r, actions).queue.idle)[h] <= 1
    ensures Everything(r) <= Everything(After(r, actions))
    decreases |actions|
  {
    if actions == [] {
      forall h
        ensures r.held[h] + multiset(r.queue.idle)[h] <= 1
      {
        assert Everything(r)[h] <= 1;
      }
    } else {
      ExclusiveStep(r, actions[0]);
      NeverHeldTwice(Step(r, actions[0]), actions[1..]);
    }
  }

  // As long as nothing was lost, the pool is a queue: the handles handed out again are the
  // released handles in the order of their release, and the idle ones are the rest. The next
  // request gets the one that has been idle longest, and NULL only when there is none.
  ghost predicate InOrder(r: Run) {
    r.lost == multiset{} ==> r.released == r.reused + r.queue.idle
  }

  lemma InOrderStep(r: Run, a: Action)
    requires Exclusive(r) && InOrder(r) && Allowed(r, a)
    ensures InOrder(Step(r, a))
  {
    match a
    case AcquireAction(memory) =>
      if r.queue.idle != [] {
        Reuse(r);
        assert r.reused + r.queue.idle == (r.reused + [r.queue.idle[0]]) + r.queue.idle[1..];
      }
    case CreateAction(h) =>
    case FailAction =>
    case ReleaseAction(h) =>
      InOrderRelease(r, h);
  }

  lemma InOrderRelease(r: Run, h: Handle)
    requires Exclusive(r) && InOrder(r) && Allowed(r, ReleaseAction(h))
    ensures InOrder(Step(r, ReleaseAction(h)))
  {
    assert (r.reused + r.queue.idle) + [h] == r.reused + (r.queue.idle + [h]);
    if |r.queue.idle| + 1 == r.queue.numSlots {
      assert h in Step(r, ReleaseAction(h)).lost;
    }
  }

  lemma {:induction false} FirstInFirstOut(r: Run, actions: seq<Action>)
    requires Exclusive(r) && InOrder(r) && AllAllowed(r, actions)
    ensures InOrder(After(r, actions))
    ensures var r' := After(r, actions);
            r'.lost == multiset{} ==>
              forall memory :: AfterAcquire(r'.queue, memory).handle
                               == if |r'.reused| < |r'.released| then r'.released[|r'.reused|] else NULL
    decreases |actions|
  {
    if actions != [] {
      ExclusiveStep(r, actions[0]);
      InOrderStep(r, actions[0]);
      FirstInFirstOut(Step(r, actions[0]), actions[1..]);
    }
  }

  // ---- when handles are lost ----

  // There are slots for everything that exists or is being created. After a growth that failed, more
  // are counted as used than there are.
  ghost predicate Counted(r: Run) {
    var n := |Everything(r)| + r.creating;
    n <= r.queue.numUsedSlots && n <= r.queue.numSlots && 0 < r.queue.numSlots
  }

  lemma CountedStep(r: Run, a: Action)
    requires Exclusive(r) && Counted(r) && Allowed(r, a)
    ensures Counted(Step(r, a))
  {
    ExclusiveStep(r, a);
    if a.CreateAction? {
      assert |Everything(r) + multiset{a.handle}| == |Everything(r)| + 1;
    }
  }

  // A release loses handles exactly when it makes the idle handles fill all slots. Then this was the
  // only handle still held, none was being created and none was lost before.
  lemma LossExactly(r: Run, h: Handle)
    requires Exclusive(r) && Counted(r) && h in r.held
    ensures Step(r, ReleaseAction(h)).lost != r.lost <==> |r.queue.idle| + 1 == r.queue.numSlots
    ensures Step(r, ReleaseAction(h)).lost != r.lost ==>
              && r.held == multiset{h} && r.lost == multiset{} && r.creating == 0
              && Step(r, ReleaseAction(h)).lost == Everything(r)
  {
    var idle := r.queue.idle;
    assert r.held == multiset{h} + (r.held - multiset{h});
    var dropped := multiset(idle) + multiset{h};
    assert |dropped| == |idle| + 1;
    if |idle| + 1 == r.queue.numSlots {
      assert h in r.lost + dropped && (r.lost + dropped)[h] == r.lost[h] + dropped[h];
      assert r.held - multiset{h} == multiset{} && r.lost == multiset{};
      assert Everything(r) == dropped;
    } else {
      assert r.lost + multiset{} == r.lost;
    }
  }

  lemma LostStays(r: Run, a: Action)
    requires Exclusive(r) && Counted(r) && Allowed(r, a) && r.lost != multiset{}
    ensures Step(r, a).lost == r.lost
  {
    if a.ReleaseAction? {
      LossExactly(r, a.handle);
    }
  }

  // Over the whole life of a pool, whether or not its allocations succeed, handles are lost at most once.
  lemma {:induction false} LostAtMostOnce(r: Run, actions: seq<Action>)
    requires Exclusive(r) && Counted(r) && AllAllowed(r, actions) && r.lost != multiset{}
    ensures After(r, actions).lost == r.lost
    decreases |actions|
  {
    if actions != [] {
      var next := Step(r, actions[0]);
      ExclusiveStep(r, actions[0]);
      CountedStep(r, actions[0]);
      LostStays(r, actions[0]);
      LostAtMostOnce(next, actions[1..]);
    }
  }

  // ---- a run that loses all handles ----

  ghost predicate Leads(r: Run, actions: seq<Action>, r': Run) {
    AllAllowed(r, actions) && After(r, actions) == r'
  }

  lemma FirstThen(r: Run, a: Action, rest: seq<Action>, r1: Run, r': Run)
    requires Allowed(r, a) && Step(r, a) == r1 && Leads(r1, rest, r')
    ensures Leads(r, [a] + rest, r')
  {
    assert ([a] + rest)[1..] == rest;
  }

  lemma FirstOf(r: Run, actions: seq<Action>, r': Run)
    requires actions != [] && Leads(r, actions, r')
    ensures Allowed(r, actions[0]) && Leads(Step(r, actions[0]), actions[1..], r')
  {
  }

  lemma {:induction false} LeadsOn(r: Run, first: seq<Action>, r1: Run, more: seq<Action>, r': Run)
    requires Leads(r, first, r1) && Leads(r1, more, r')
    ensures Leads(r, first + more, r')
    decreases |first|
  {
    if first == [] {
      assert first + more == more;
    } else {
      var a, rest := first[0], first[1..];
      FirstOf(r, first, r1);
      LeadsOn(Step(r, a), rest, r1, more, r');
      FirstThen(r, a, rest + more, Step(r, a), r');
      assert first + more == [a] + (rest + more);
    }
  }

  function Acquires(n: nat): (actions: seq<Action>) {
    if n == 0 then [] else [AcquireAction(true)] + Acquires(n - 1)
  }

  function Creates(handles: seq<Handle>): (actions: seq<Action>) {
    if handles == [] then [] else [CreateAction(handles[0])] + Creates(handles[1..])
  }

  function Releases(handles: seq<Handle>): (actions: seq<Action>) {
    if handles == [] then [] else [ReleaseAction(handles[0])] + Releases(handles[1..])
  }

  lemma {:induction false} AfterAcquires(n: nat, used: nat, r: Run, r': Run)
    requires used + n <= GROWTH
    requires r == Run(Queue([], GROWTH, used), multiset{}, multiset{}, used, [], [])
    requires r' == Run(Queue([], GROWTH, used + n), multiset{}, multiset{}, used + n, [], [])
    ensures Leads(r, Acquires(n), r')
    decreases n
  {
    if n > 0 {
      var r1 := Run(Queue([], GROWTH, used + 1), multiset{}, multiset{}, used + 1, [], []);
      AfterAcquires(n - 1, used + 1, r1, r');
      FirstThen(r, AcquireAction(true), Acquires(n - 1), r1, r');
    }
  }

  lemma {:induction false} AfterCreates(handles: seq<Handle>, held: multiset<Handle>, r: Run, r': Run)
    requires forall i :: 0 <= i < |handles| ==> handles[i] != NULL && handles[i] !in held
    requires forall i, j :: 0 <= i < j < |handles| ==> handles[i] != handles[j]
    requires r == Run(Queue([], GROWTH, GROWTH), held, multiset{}, |handles|, [], [])
    requires r' == Run(Queue([], GROWTH, GROWTH), held + multiset(handles), multiset{}, 0, [], [])
    ensures Leads(r, Creates(handles), r')
    decreases |handles|
  {
    if handles != [] {
      var h, rest := handles[0], handles[1..];
      var r1 := Run(Queue([], GROWTH, GROWTH), held + multiset{h}, multiset{}, |rest|, [], []);
      assert Everything(r) == held;
      assert handles == [h] + rest;
      assert (held + multiset{h}) + multiset(rest) == held + multiset(handles);
      AfterCreates(rest, held + multiset{h}, r1, r');
      FirstThen(r, CreateAction(h), Creates(rest), r1, r');
    } else {
      assert held + multiset(handles) == held;
    }
  }

  lemma {:induction false} AfterReleases(handles: seq<Handle>, idle: seq<Handle>, r: Run, r': Run)
    requires handles != [] && |idle| + |handles| == GROWTH
    requires r == Run(Queue(idle, GROWTH, GROWTH), multiset(handles), multiset{}, 0, idle, [])
    requires r' == Run(Queue([], GROWTH, GROWTH), multiset{}, multiset(idle + handles), 0, idle + handles, [])
    ensures Leads(r, Releases(handles), r')
    decreases |handles|
  {
    var h, rest := handles[0], handles[1..];
    assert handles == [h] + rest;
    assert multiset(handles) - multiset{h} == multiset(rest);
    if rest != [] {
      var r1 := Run(Queue(idle + [h], GROWTH, GROWTH), multiset(rest), multiset{}, 0, idle + [h], []);
      assert (idle + [h]) + rest == idle + handles;
      AfterReleases(rest, idle + [h], r1, r');
      ReleaseOne(idle, h, multiset(handles), r, r1);
      FirstThen(r, ReleaseAction(h), Releases(rest), r1, r');
    } else {
      assert handles == [h];
      ReleaseLast(idle, h, r, r');
      FirstThen(r, ReleaseAction(h), [], r', r');
      assert [ReleaseAction(h)] + [] == Releases(handles);
    }
  }

  lemma ReleaseOne(idle: seq<Handle>, h: Handle, held: multiset<Handle>, r: Run, r1: Run)
    requires |idle| + 1 < GROWTH && h in held
    requires r == Run(Queue(idle, GROWTH, GROWTH), held, multiset{}, 0, idle, [])
    requires r1 == Run(Queue(idle + [h], GROWTH, GROWTH), held - multiset{h}, multiset{}, 0, idle + [h], [])
    ensures Allowed(r, ReleaseAction(h)) && Step(r, ReleaseAction(h)) == r1
  {
  }

  lemma ReleaseLast(idle: seq<Handle>, h: Handle, r: Run, r1: Run)
    requires |idle| + 1 == GROWTH
    requires r == Run(Queue(idle, GROWTH, GROWTH), multiset{h}, multiset{}, 0, idle, [])
    requires r1 == Run(Queue([], GROWTH, GROWTH), multiset{}, multiset(idle + [h]), 0, idle + [h], [])
    ensures Allowed(r, ReleaseAction(h)) && Step(r, ReleaseAction(h)) == r1
  {
    assert r1.lost == multiset{} + (multiset(idle) + multiset{h});
  }

  // It does happen: eight requests are given no handle, eight handles are created and all of them given
  // back. None is idle then, and the next request is told so.
  lemma AllIdleHandlesLost(handles: seq<Handle>)
    requires |handles| == GROWTH && (forall i :: 0 <= i < GROWTH ==> handles[i] != NULL)
    requires forall i, j :: 0 <= i < j < GROWTH ==> handles[i] != handles[j]
    ensures var actions := (Acquires(GROWTH) + Creates(handles)) + Releases(handles);
            && AllAllowed(Start(), actions)
            && After(Start(), actions).lost == multiset(handles)
            && AfterAcquire(After(Start(), actions).queue, true).handle == NULL
  {
    var full := Queue([], GROWTH, GROWTH);
    var r1 := Run(full, multiset{}, multiset{}, GROWTH, [], []);
    var r2 := Run(full, multiset(handles), multiset{}, 0, [], []);
    var r3 := Run(full, multiset{}, multiset(handles), 0, handles, []);
    AfterAcquires(GROWTH, 0, Start(), r1);
    assert multiset{} + multiset(handles) == multiset(handles);
    AfterCreates(handles, multiset{}, r1, r2);
    assert [] + handles == handles;
    AfterReleases(handles, [], r2, r3);
    LeadsOn(Start(), Acquires(GROWTH), r1, Creates(handles), r2);
    LeadsOn(Start(), Acquires(GROWTH) + Creates(handles), r2, Releases(handles), r3);
  }

  // ---- every run ----

  lemma {:induction false} CountedRun(r: Run, actions: seq<Action>)
    requires Exclusive(r) && Counted(r) && AllAllowed(r, actions)
    ensures Counted(After(r, actions))
    decreases |actions|
  {
    if actions != [] {
      ExclusiveStep(r, actions[0]);
      CountedStep(r, actions[0]);
      CountedRun(Step(r, actions[0]), actions[1..]);
    }
  }

  // What the statements about runs require of the state they start from holds at every point of every run of a
  // new pool.
  lemma EveryRunHolds(actions: seq<Action>)
    requires AllAllowed(Start(), actions)
    ensures var r := After(Start(), actions);
            Exclusive(r) && InOrder(r) && Counted(r)
  {
    NeverHeldTwice(Start(), actions);
    FirstInFirstOut(Start(), actions);
    CountedRun(Start(), actions);
  }

  // In particular, when handles are lost.
  lemma LossOverRuns(actions: seq<Action>, h: Handle)
    requires AllAllowed(Start(), actions) && h in After(Start(), actions).held
    ensures var r := After(Start(), actions);
            && (Step(r, ReleaseAction(h)).lost != r.lost <==> |r.queue.idle| + 1 == r.queue.numSlots)
            && (Step(r, ReleaseAction(h)).lost != r.lost ==> r.lost == multiset{} && r.held == multiset{h})
  {
    EveryRunHolds(actions);
    LossExactly(After(Start(), actions), h);
  }

  // ---- when requests fail ----

  // The number of requests of a run that found no idle handle.
  ghost function Unserved(r: Run, actions: seq<Action>): nat
    requires AllAllowed(r, actions)
    decreases |actions|
  {
    if actions == [] then 0
    else
      (if actions[0].AcquireAction? && |r.queue.idle| == 0 then 1 else 0)
      + Unserved(Step(r, actions[0]), actions[1..])
  }

  ghost predicate HasMemory(actions: seq<Action>) {
    forall k :: 0 <= k < |actions| && actions[k].AcquireAction? ==> actions[k].memory
  }

  lemma {:induction false} UsedIsUnserved(r: Run, actions: seq<Action>)
    requires AllAllowed(r, actions)
    ensures After(r, actions).queue.numUsedSlots == r.queue.numUsedSlots + Unserved(r, actions)
    decreases |actions|
  {
    if actions != [] {
      UsedIsUnserved(Step(r, actions[0]), actions[1..]);
    }
  }

  // At every point of every run of a new pool, a request fails if and only if no handle is idle, as many
  // requests as there are slots found none before, and there is no memory for more slots. A request that does
  // not fail gets the handle that is idle longest, if there is one.
  lemma RequestFailsExactly(actions: seq<Action>, memory: bool)
    requires AllAllowed(Start(), actions)
    ensures var r := After(Start(), actions);
            && (!AfterAcquire(r.queue, memory).ok <==>
                |r.queue.idle| == 0 && Unserved(Start(), actions) >= r.queue.numSlots && !memory)
            && AfterAcquire(r.queue, memory).handle == if |r.queue.idle| == 0 then NULL else r.queue.idle[0]
  {
    UsedIsUnserved(Start(), actions);
  }

  // The slots are the least multiple of eight, at least eight, that the used ones fit into.
  ghost predicate Grown(q: Queue) {
    && q.numSlots % 8 == 0 && q.numUsedSlots <= q.numSlots
    && (q.numSlots == 8 || (q.numSlots > 8 && q.numSlots - 8 < q.numUsedSlots))
  }

  lemma {:induction false} GrownRun(r: Run, actions: seq<Action>)
    requires AllAllowed(r, actions) && HasMemory(actions) && Grown(r.queue)
    ensures Grown(After(r, actions).queue)
    decreases |actions|
  {
    if actions != [] {
      assert forall k :: 0 <= k < |actions| - 1 ==> actions[1..][k] == actions[k + 1];
      GrownStep(r, actions[0]);
      GrownRun(Step(r, actions[0]), actions[1..]);
    }
  }

  lemma GrownStep(r: Run, a: Action)
    requires Allowed(r, a) && Grown(r.queue) && (a.AcquireAction? ==> a.memory)
    ensures Grown(Step(r, a).queue)
  {
  }

  // While allocations succeed no request fails, and the pool is no larger than its clients need: its slots are
  // the least multiple of eight, at least eight, that is no less than the number of requests that found no idle
  // handle.
  lemma NeverFailsWithMemory(actions: seq<Action>, k: nat)
    requires AllAllowed(Start(), actions) && HasMemory(actions) && k < |actions| && actions[k].AcquireAction?
    ensures AllAllowed(Start(), actions[..k])
    ensures AfterAcquire(After(Start(), actions[..k]).queue, actions[k].memory).ok
    ensures var n, u := After(Start(), actions[..k]).queue.numSlots, Unserved(Start(), actions[..k]);
            n % 8 == 0 && n >= 8 && u <= n && (n > 8 ==> u > n - 8)
  {
    PrefixAllowed(Start(), actions, k);
    RequestFailsExactly(actions[..k], actions[k].memory);
    GrownRun(Start(), actions[..k]);
    UsedIsUnserved(Start(), actions[..k]);
  }

  lemma {:induction false} PrefixAllowed(r: Run, actions: seq<Action>, k: nat)
    requires AllAllowed(r, actions) && k <= |actions|
    ensures AllAllowed(r, actions[..k])
    decreases |actions|
  {
    if k > 0 {
      PrefixAllowed(Step(r, actions[0]), actions[1..], k - 1);
      assert actions[..k][1..] == actions[1..][..k - 1];
    }
  }
}
