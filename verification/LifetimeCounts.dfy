/** How many frames of all threads stand where in calls on a handle, as sums that every step
    changes by the frames it replaces. */
module LifetimeCounts {
  import opened Lifetimes

  // References owned between calls or held by frames; frames that run a free procedure; and frames
  // by the place they have reached.
  datatype Place = Tokens | Held | Jobs | Late | Critical | Freed | Unlisted | Resetting | Enlisting | Busy

  // The connection's close is in progress.
  predicate IsBusy(pc: Pc) {
    pc.Walk? || pc.WalkCheck? || pc.EndSession? || pc.ConnReset?
  }

  // Between setting the closing flag and being done with the close.
  predicate IsCritical(pc: Pc) {
    pc.CloseFree? || pc.LobUnlist? || pc.LobClear? || pc.LobReset? || pc.ObjectUnlist? || pc.ObjectReset? || IsBusy(pc)
  }

  predicate IsAt(f: Frame, p: Place) {
    match p
    case Tokens => !f.freeing
    case Held => !f.freeing
    case Jobs => f.freeing
    case Late => f.freeing && (f.pc.ReleaseRefs? || f.pc.Deallocate?)
    case Critical => IsCritical(f.pc)
    case Freed => f.pc.LobUnlist? || f.pc.LobClear? || f.pc.ObjectUnlist?
    case Unlisted => f.pc.LobClear?
    case Resetting => f.pc.LobReset?
    case Enlisting => !f.freeing && f.pc.Enlist?
    case Busy => IsBusy(f.pc)
  }

  function At(f: Frame, p: Place, h: Id): nat {
    if f.h == h && IsAt(f, p) then 1 else 0
  }

  function InStack(stack: seq<Frame>, p: Place, h: Id): nat {
    if stack == [] then 0 else At(stack[0], p, h) + InStack(stack[1..], p, h)
  }

  function InThread(th: Thread, p: Place, h: Id): nat {
    InStack(th.stack, p, h) + if p == Tokens then th.owned[h] else 0
  }

  function Tally(threads: seq<Thread>, p: Place, h: Id): nat {
    if threads == [] then 0 else InThread(threads[0], p, h) + Tally(threads[1..], p, h)
  }

  function Others(threads: seq<Thread>, t: nat, p: Place, h: Id): nat
    requires t < |threads|
  {
    Tally(threads[..t], p, h) + Tally(threads[t + 1..], p, h)
  }

  // Everything but the frame on top of the stack of thread t.
  function Around(threads: seq<Thread>, t: nat, p: Place, h: Id): nat
    requires t < |threads| && threads[t].stack != []
  {
    Others(threads, t, p, h) + InThread(threads[t].(stack := threads[t].stack[1..]), p, h)
  }

  lemma {:induction false} TallySplit(threads: seq<Thread>, t: nat, p: Place, h: Id)
    requires t < |threads|
    ensures Tally(threads, p, h) == Others(threads, t, p, h) + InThread(threads[t], p, h)
    decreases t
  {
    if t > 0 {
      TallySplit(threads[1..], t - 1, p, h);
      assert threads[1..][..t - 1] == threads[..t][1..];
      assert threads[1..][t - 1 + 1..] == threads[t + 1..];
    }
  }

  // A step of thread t replaces its own counts and leaves the rest.
  lemma TallyUpdate(threads: seq<Thread>, t: nat, th: Thread, p: Place, h: Id)
    requires t < |threads|
    ensures Tally(threads, p, h) == Others(threads, t, p, h) + InThread(threads[t], p, h)
    ensures Tally(threads[t := th], p, h) == Others(threads, t, p, h) + InThread(th, p, h)
  {
    TallySplit(threads, t, p, h);
    TallySplit(threads[t := th], t, p, h);
    assert threads[t := th][..t] == threads[..t];
    assert threads[t := th][t + 1..] == threads[t + 1..];
  }

  lemma {:induction false} StackConcat(top: seq<Frame>, rest: seq<Frame>, p: Place, h: Id)
    ensures InStack(top + rest, p, h) == InStack(top, p, h) + InStack(rest, p, h)
  {
    if top == [] {
      assert top + rest == rest;
    } else {
      StackConcat(top[1..], rest, p, h);
      assert (top + rest)[1..] == top[1..] + rest;
    }
  }

  lemma BeforeTally(threads: seq<Thread>, t: nat, f: Frame, p: Place, h: Id)
    requires t < |threads| && threads[t].stack != [] && f == threads[t].stack[0]
    ensures Tally(threads, p, h) == Around(threads, t, p, h) + At(f, p, h)
  {
    TallySplit(threads, t, p, h);
  }

  lemma AfterTally(threads: seq<Thread>, t: nat, top: seq<Frame>, threads': seq<Thread>, p: Place, h: Id)
    requires t < |threads| && threads[t].stack != []
    requires threads' == threads[t := threads[t].(stack := top + threads[t].stack[1..])]
    ensures Tally(threads', p, h) == Around(threads, t, p, h) + InStack(top, p, h)
  {
    TallyUpdate(threads, t, threads'[t], p, h);
    StackConcat(top, threads[t].stack[1..], p, h);
  }

  lemma SetTopTally(s: State, t: nat, handles: seq<Handle>, top: seq<Frame>, p: Place, h: Id)
    requires t < |s.threads| && s.threads[t].stack != []
    ensures Tally(s.threads, p, h) == Around(s.threads, t, p, h) + At(s.threads[t].stack[0], p, h)
    ensures Tally(SetTop(s, t, handles, top).threads, p, h) == Around(s.threads, t, p, h) + InStack(top, p, h)
  {
    BeforeTally(s.threads, t, s.threads[t].stack[0], p, h);
    AfterTally(s.threads, t, top, SetTop(s, t, handles, top).threads, p, h);
  }

  // ---- relations that hold in every sum ----

  lemma {:induction false} StackCoherent(stack: seq<Frame>, h: Id)
    ensures InStack(stack, Held, h) == InStack(stack, Tokens, h)
    ensures InStack(stack, Late, h) <= InStack(stack, Jobs, h)
    ensures InStack(stack, Unlisted, h) <= InStack(stack, Freed, h)
    ensures InStack(stack, Freed, h) + InStack(stack, Resetting, h) + InStack(stack, Busy, h) <= InStack(stack, Critical, h)
    ensures InStack(stack, Enlisting, h) + InStack(stack, Critical, h) + InStack(stack, Late, h)
            <= InStack(stack, Held, h) + InStack(stack, Jobs, h)
    ensures InStack(stack, Enlisting, h) <= InStack(stack, Held, h)
  {
    if stack != [] {
      StackCoherent(stack[1..], h);
    }
  }

  lemma {:induction false} TallyCoherent(threads: seq<Thread>, h: Id)
    ensures Tally(threads, Held, h) <= Tally(threads, Tokens, h)
    ensures Tally(threads, Late, h) <= Tally(threads, Jobs, h)
    ensures Tally(threads, Unlisted, h) <= Tally(threads, Freed, h)
    ensures Tally(threads, Freed, h) + Tally(threads, Resetting, h) + Tally(threads, Busy, h) <= Tally(threads, Critical, h)
    ensures Tally(threads, Enlisting, h) + Tally(threads, Critical, h) + Tally(threads, Late, h)
            <= Tally(threads, Held, h) + Tally(threads, Jobs, h)
    ensures Tally(threads, Enlisting, h) <= Tally(threads, Held, h)
  {
    if threads != [] {
      StackCoherent(threads[0].stack, h);
      TallyCoherent(threads[1..], h);
    }
  }

  lemma AroundCoherent(threads: seq<Thread>, t: nat, h: Id)
    requires t < |threads| && threads[t].stack != []
    ensures Around(threads, t, Held, h) <= Around(threads, t, Tokens, h)
    ensures Around(threads, t, Late, h) <= Around(threads, t, Jobs, h)
    ensures Around(threads, t, Unlisted, h) <= Around(threads, t, Freed, h)
    ensures Around(threads, t, Freed, h) + Around(threads, t, Resetting, h) + Around(threads, t, Busy, h)
            <= Around(threads, t, Critical, h)
    ensures Around(threads, t, Enlisting, h) + Around(threads, t, Critical, h) + Around(threads, t, Late, h)
            <= Around(threads, t, Held, h) + Around(threads, t, Jobs, h)
    ensures Around(threads, t, Enlisting, h) <= Around(threads, t, Held, h)
  {
    StackCoherent(threads[t].stack[1..], h);
    TallyCoherent(threads[..t], h);
    TallyCoherent(threads[t + 1..], h);
  }

  // ---- references between handles ----

  function RefsTo(hs: seq<Handle>, h: Id): nat {
    if hs == [] then 0 else multiset(hs[0].refs)[h] + RefsTo(hs[1..], h)
  }

  lemma {:induction false} RefsToUpdate(hs: seq<Handle>, i: nat, r: Handle, h: Id)
    requires i < |hs|
    ensures RefsTo(hs[i := r], h) == RefsTo(hs, h) - multiset(hs[i].refs)[h] + multiset(r.refs)[h]
  {
    if i == 0 {
      assert hs[i := r][1..] == hs[1..];
    } else {
      RefsToUpdate(hs[1..], i - 1, r, h);
      assert hs[i := r][1..] == hs[1..][i - 1 := r];
    }
  }

  lemma {:induction false} RefsToAppend(hs: seq<Handle>, r: Handle, h: Id)
    ensures RefsTo(hs + [r], h) == RefsTo(hs, h) + multiset(r.refs)[h]
  {
    if hs == [] {
      assert (hs + [r])[1..] == [];
    } else {
      RefsToAppend(hs[1..], r, h);
      assert (hs + [r])[1..] == hs[1..] + [r];
    }
  }

  lemma {:induction false} RefsToSome(hs: seq<Handle>, i: nat, h: Id)
    requires i < |hs| && h in hs[i].refs
    ensures RefsTo(hs, h) >= 1
  {
    if i > 0 {
      RefsToSome(hs[1..], i - 1, h);
    } else {
      assert h in multiset(hs[0].refs);
    }
  }

  lemma {:induction false} Referrer(hs: seq<Handle>, h: Id) returns (k: Id)
    requires RefsTo(hs, h) >= 1
    ensures k < |hs| && h in hs[k].refs
  {
    if multiset(hs[0].refs)[h] >= 1 {
      k := 0;
      assert h in multiset(hs[0].refs);
    } else {
      var j := Referrer(hs[1..], h);
      k := j + 1;
    }
  }
}
