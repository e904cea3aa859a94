/** Reference counts in a program with a single thread: a release runs the whole cascade of free
    procedures before it returns. */
module RefCounts {
  import opened Lifetimes
  import opened LifetimeCounts

  // References given out: those the program owns, and those a free procedure has taken from the
  // handle it frees and not dropped yet.
  type Owned = multiset<Id>

  predicate NodeOk(hs: seq<Handle>, owned: Owned, h: Id)
    requires h < |hs|
  {
    var r := hs[h];
    && r.count == owned[h] + RefsTo(hs, h)
    && (r.checkInt <==> r.count > 0)
    && r.freeCalls == (if r.count == 0 then 1 else 0)
    && |r.refs| <= |r.parents| && r.refs == r.parents[|r.parents| - |r.refs|..]
    && (r.count > 0 ==> r.refs == r.parents)
    && (forall k :: 0 <= k < |r.parents| ==> r.parents[k] < h)
  }

  // Everything that holds even in the middle of a cascade.
  ghost predicate Balanced(hs: seq<Handle>, owned: Owned) {
    && (forall h :: 0 <= h < |hs| ==> NodeOk(hs, owned, h))
    && (forall h :: h in owned ==> h < |hs|)
  }

  // The free procedure of the handle has not given back all references yet.
  predicate Unfinished(r: Handle) {
    r.count == 0 && r.refs != []
  }

  predicate Finished(hs: seq<Handle>) {
    forall k :: 0 <= k < |hs| ==> !Unfinished(hs[k])
  }

  // ---- which handles are alive ----

  // The program can get to the handle from a reference it owns.
  ghost predicate Reachable(hs: seq<Handle>, owned: Owned, h: Id)
    requires h < |hs|
    decreases |hs| - h
  {
    owned[h] > 0 || exists k :: h < k < |hs| && h in hs[k].parents && Reachable(hs, owned, k)
  }

  // Between calls, a handle is alive if and only if the program can reach it.
  lemma {:induction false} AliveIffReachable(hs: seq<Handle>, owned: Owned, h: Id)
    requires Balanced(hs, owned) && h < |hs| && Finished(hs)
    ensures hs[h].count > 0 <==> Reachable(hs, owned, h)
    decreases |hs| - h
  {
    assert NodeOk(hs, owned, h);
    if hs[h].count > 0 && owned[h] == 0 {
      var k := Referrer(hs, h);
      assert NodeOk(hs, owned, k) && !Unfinished(hs[k]);
      AliveIffReachable(hs, owned, k);
    }
    if Reachable(hs, owned, h) && owned[h] == 0 {
      var k :| h < k < |hs| && h in hs[k].parents && Reachable(hs, owned, k);
      AliveIffReachable(hs, owned, k);
      assert NodeOk(hs, owned, k);
      RefsToSome(hs, k, h);
    }
  }

  // ---- the steps of a release ----

  // A record changes, but not its references, and one count of owned references with it.
  lemma OneCount(hs: seq<Handle>, owned: Owned, h: Id, r: Handle, hs': seq<Handle>, owned': Owned)
    requires Balanced(hs, owned) && h < |hs| && hs' == hs[h := r] && r.refs == hs[h].refs
    requires forall k :: k != h ==> owned'[k] == owned[k]
    ensures NodeOk(hs', owned', h) ==> Balanced(hs', owned')
  {
    forall k: Id
      ensures RefsTo(hs', k) == RefsTo(hs, k)
    {
      RefsToUpdate(hs, h, r, k);
    }
    forall k | 0 <= k < |hs'| && k != h
      ensures NodeOk(hs', owned', k)
    {
      assert NodeOk(hs, owned, k);
    }
    forall k | k in owned'
      ensures k < |hs'|
    {
      assert k != h ==> k in owned;
    }
  }

  lemma DropNode(hs: seq<Handle>, owned: Owned, h: Id, r: Handle, hs': seq<Handle>, owned': Owned)
    requires h < |hs| && NodeOk(hs, owned, h) && owned[h] > 0
    requires r == hs[h].(count := hs[h].count - 1, checkInt := hs[h].count - 1 > 0,
                         freeCalls := hs[h].freeCalls + if hs[h].count - 1 == 0 then 1 else 0)
    requires hs' == hs[h := r] && owned' == owned - multiset{h}
    ensures NodeOk(hs', owned', h)
  {
    RefsToUpdate(hs, h, r, h);
  }

  lemma DropStep(hs: seq<Handle>, owned: Owned, h: Id, r: Handle, hs': seq<Handle>, owned': Owned)
    requires Balanced(hs, owned) && owned[h] > 0 && h < |hs|
    requires r == hs[h].(count := hs[h].count - 1, checkInt := hs[h].count - 1 > 0,
                         freeCalls := hs[h].freeCalls + if hs[h].count - 1 == 0 then 1 else 0)
    requires hs' == hs[h := r] && owned' == owned - multiset{h}
    ensures Balanced(hs', owned')
  {
    DropNode(hs, owned, h, r, hs', owned');
    OneCount(hs, owned, h, r, hs', owned');
  }

  // References go from p to the owned ones; only the handle that held it changes itself.
  lemma RefsTaken(hs: seq<Handle>, h: Id, p: Id, r: Handle, hs': seq<Handle>, k: Id)
    requires h < |hs| && hs[h].refs == [p] + r.refs && hs' == hs[h := r]
    ensures RefsTo(hs', k) + (if k == p then 1 else 0) == RefsTo(hs, k)
  {
    RefsToUpdate(hs, h, r, k);
  }

  lemma TakeOther(hs: seq<Handle>, owned: Owned, p: Id, hs': seq<Handle>, owned': Owned, k: Id)
    requires k < |hs| == |hs'| && NodeOk(hs, owned, k) && hs'[k] == hs[k] && owned' == owned + multiset{p}
    requires RefsTo(hs', k) + (if k == p then 1 else 0) == RefsTo(hs, k)
    ensures NodeOk(hs', owned', k)
  {
  }

  lemma TakeOwn(hs: seq<Handle>, owned: Owned, h: Id, p: Id, r: Handle, hs': seq<Handle>, owned': Owned)
    requires h < |hs| == |hs'| && NodeOk(hs, owned, h) && hs[h].count == 0 && hs[h].refs == [p] + r.refs
    requires r == hs[h].(refs := hs[h].refs[1..]) && hs'[h] == r && owned' == owned + multiset{p}
    requires RefsTo(hs', h) + (if h == p then 1 else 0) == RefsTo(hs, h)
    ensures NodeOk(hs', owned', h)
  {
    assert r.refs == r.parents[|r.parents| - |r.refs|..];
  }

  lemma TakeStep(hs: seq<Handle>, owned: Owned, h: Id, p: Id, r: Handle, hs': seq<Handle>, owned': Owned)
    requires Balanced(hs, owned) && h < |hs| && hs[h].count == 0 && hs[h].refs != [] && p == hs[h].refs[0]
    requires r == hs[h].(refs := hs[h].refs[1..])
    requires hs' == hs[h := r] && owned' == owned + multiset{p}
    ensures Balanced(hs', owned') && p < h
  {
    assert NodeOk(hs, owned, h);
    assert hs[h].refs == [p] + r.refs;
    forall k | 0 <= k < |hs'|
      ensures NodeOk(hs', owned', k)
    {
      RefsTaken(hs, h, p, r, hs', k);
      if k == h {
        TakeOwn(hs, owned, h, p, r, hs', owned');
      } else {
        TakeOther(hs, owned, p, hs', owned', k);
      }
    }
  }

  lemma ShareStep(hs: seq<Handle>, owned: Owned, h: Id, r: Handle, hs': seq<Handle>, owned': Owned)
    requires Balanced(hs, owned) && h < |hs| && hs[h].count > 0
    requires r == hs[h].(count := hs[h].count + 1) && hs' == hs[h := r] && owned' == owned + multiset{h}
    ensures Balanced(hs', owned')
  {
    assert NodeOk(hs, owned, h);
    RefsToUpdate(hs, h, r, h);
    OneCount(hs, owned, h, r, hs', owned');
  }

  // A new handle takes over the references to its parents that were just added.
  lemma AppendOld(hs: seq<Handle>, owned: Owned, r: Handle, hs': seq<Handle>, owned': Owned, k: Id)
    requires k < |hs| && NodeOk(hs, owned, k) && hs' == hs + [r]
    requires multiset(r.parents) <= owned && owned'[k] == owned[k] - multiset(r.parents)[k] && r.refs == r.parents
    ensures NodeOk(hs', owned', k)
  {
    RefsToAppend(hs, r, k);
  }

  lemma AppendNew(hs: seq<Handle>, owned: Owned, r: Handle, h: Id, hs': seq<Handle>, owned': Owned)
    requires Balanced(hs, owned) && h == |hs| && hs' == hs + [r]
    requires r.count == 1 && r.checkInt && r.freeCalls == 0 && r.refs == r.parents
    requires (forall k :: 0 <= k < |r.parents| ==> r.parents[k] < h) && owned'[h] == 1
    ensures NodeOk(hs', owned', h)
  {
    RefsToAppend(hs, r, h);
    NoneBeyond(hs, owned, h);
    assert h !in r.parents;
    assert multiset(r.parents)[h] == 0;
  }

  lemma AppendStep(hs: seq<Handle>, owned: Owned, r: Handle, h: Id, hs': seq<Handle>, owned': Owned)
    requires Balanced(hs, owned) && h == |hs| && hs' == hs + [r]
    requires r.count == 1 && r.checkInt && r.freeCalls == 0 && r.refs == r.parents
    requires forall k :: 0 <= k < |r.parents| ==> r.parents[k] < h
    requires multiset(r.parents) <= owned && owned' == owned - multiset(r.parents) + multiset{h}
    ensures Balanced(hs', owned')
  {
    assert h !in owned;
    AppendNew(hs, owned, r, h, hs', owned');
    forall k | 0 <= k < h
      ensures NodeOk(hs', owned', k)
    {
      AppendOld(hs, owned, r, hs', owned', k);
    }
  }

  lemma {:induction false} NoReferrer(hs: seq<Handle>, h: Id)
    requires forall k :: 0 <= k < |hs| ==> h !in hs[k].refs
    ensures RefsTo(hs, h) == 0
  {
    if hs != [] {
      NoReferrer(hs[1..], h);
    }
  }

  lemma NoneBeyond(hs: seq<Handle>, owned: Owned, h: Id)
    requires Balanced(hs, owned) && h >= |hs|
    ensures RefsTo(hs, h) == 0
  {
    forall k | 0 <= k < |hs|
      ensures h !in hs[k].refs
    {
      assert NodeOk(hs, owned, k);
    }
    NoReferrer(hs, h);
  }

  // A reference can be taken only from a handle that is alive.
  lemma OwnedIsAlive(hs: seq<Handle>, owned: Owned, h: Id)
    requires Balanced(hs, owned) && owned[h] > 0
    ensures h < |hs| && hs[h].count > 0 && hs[h].checkInt
  {
    assert h in owned && NodeOk(hs, owned, h);
  }

  lemma ParentsExist(hs: seq<Handle>, owned: Owned, parents: seq<Id>)
    requires Balanced(hs, owned) && forall i :: 0 <= i < |parents| ==> owned[parents[i]] > 0
    ensures forall i :: 0 <= i < |parents| ==> parents[i] < |hs|
  {
    forall i | 0 <= i < |parents|
      ensures parents[i] < |hs|
    {
      assert parents[i] in owned;
    }
  }

  // Every handle has gained as many references as it occurs in ps.
  predicate Raised(hs: seq<Handle>, ps: seq<Id>, hs': seq<Handle>) {
    |hs'| == |hs|
    && forall k :: 0 <= k < |hs| ==> hs'[k] == hs[k].(count := hs[k].count + multiset(ps)[k])
  }

  lemma RaiseMore(hs: seq<Handle>, ps: seq<Id>, hs1: seq<Handle>, hs2: seq<Handle>)
    requires ps != [] && ps[0] < |hs| && hs1 == hs[ps[0] := hs[ps[0]].(count := hs[ps[0]].count + 1)]
    requires Raised(hs1, ps[1..], hs2)
    ensures Raised(hs, ps, hs2)
  {
    assert ps == [ps[0]] + ps[1..];
  }

  lemma OwnedWithAll(before: Owned, parents: seq<Id>, after: Owned)
    requires parents != [] && after == before + multiset{parents[0]} + multiset(parents[1..])
    ensures after == before + multiset(parents)
  {
    assert parents == [parents[0]] + parents[1..];
  }

  class Handles {
    var hs: seq<Handle>
    ghost var owned: Owned

    ghost predicate Valid()
      reads this
    {
      Balanced(hs, owned) && Finished(hs)
    }

    constructor ()
      ensures Valid() && hs == [] && owned == multiset{}
    {
      hs, owned := [], multiset{};
    }

    // The part of dpiGen__setRefCount that adds a reference, for a handle known to be valid.
    method Add(h: Id)
      requires Balanced(hs, owned) && h < |hs| && hs[h].count > 0
      modifies this
      ensures Balanced(hs, owned) && owned == old(owned) + multiset{h}
      ensures hs == old(hs)[h := old(hs[h]).(count := old(hs[h]).count + 1)]
      ensures old(Finished(hs)) ==> Finished(hs)
    {
      var r := hs[h].(count := hs[h].count + 1);
      ShareStep(hs, owned, h, r, hs[h := r], owned + multiset{h});
      hs := hs[h := r];
      owned := owned + multiset{h};
    }

    // The part that drops one: if it was the last, the check integer is cleared and the free
    // procedure gives back the references the handle holds, one after the other.
    method Drop(h: Id)
      requires Balanced(hs, owned) && h < |hs| && owned[h] > 0
      modifies this
      ensures Balanced(hs, owned) && owned == old(owned) - multiset{h} && |hs| == |old(hs)|
      ensures forall k :: h < k < |hs| ==> hs[k] == old(hs[k])
      ensures forall k :: 0 <= k < |hs| ==> hs[k].parents == old(hs[k]).parents
      ensures forall k :: 0 <= k < |hs| ==> (Unfinished(hs[k]) <==> Unfinished(old(hs[k])))
      decreases h, 1, 0
    {
      var r := hs[h].(count := hs[h].count - 1);
      assert hs[h].checkInt && hs[h].count > 0 && hs[h].freeCalls == 0 by {
        assert NodeOk(hs, owned, h);
      }
      if r.count == 0 {
        r := r.(checkInt := false, freeCalls := r.freeCalls + 1);
      }
      DropStep(hs, owned, h, r, hs[h := r], owned - multiset{h});
      hs := hs[h := r];
      owned := owned - multiset{h};
      if r.count == 0 {
        FreeRefs(h);
      }
    }

    method FreeRefs(h: Id)
      requires Balanced(hs, owned) && h < |hs| && hs[h].count == 0
      modifies this
      ensures Balanced(hs, owned) && owned == old(owned) && |hs| == |old(hs)|
      ensures hs[h].count == 0 && hs[h].refs == [] && hs[h].parents == old(hs[h]).parents
      ensures forall k :: h < k < |hs| ==> hs[k] == old(hs[k])
      ensures forall k :: 0 <= k < h ==> hs[k].parents == old(hs[k]).parents
      ensures forall k :: 0 <= k < h ==> (Unfinished(hs[k]) <==> Unfinished(old(hs[k])))
      decreases h, 0, |hs[h].refs|
    {
      if hs[h].refs != [] {
        var p := hs[h].refs[0];
        var r := hs[h].(refs := hs[h].refs[1..]);
        TakeStep(hs, owned, h, p, r, hs[h := r], owned + multiset{p});
        hs := hs[h := r];
        owned := owned + multiset{p};
        Drop(p);
        FreeRefs(h);
      }
    }

    method AddToAll(parents: seq<Id>)
      requires Valid() && forall i :: 0 <= i < |parents| ==> owned[parents[i]] > 0
      modifies this
      ensures Valid() && owned == old(owned) + multiset(parents)
      ensures Raised(old(hs), parents, hs)
      decreases |parents|
    {
      if parents != [] {
        OwnedIsAlive(hs, owned, parents[0]);
        Add(parents[0]);
        ghost var before := hs;
        AddToAll(parents[1..]);
        OwnedWithAll(old(owned), parents, owned);
        RaiseMore(old(hs), parents, before, hs);
      }
    }

    // A new handle that takes over owned references.
    method Append(r: Handle, ghost rest: Owned) returns (h: Id)
      requires Valid() && r.count == 1 && r.checkInt && r.freeCalls == 0 && r.refs == r.parents
      requires (forall k :: 0 <= k < |r.parents| ==> r.parents[k] < |hs|) && owned == rest + multiset(r.parents)
      modifies this
      ensures Valid() && h == |old(hs)| && hs == old(hs) + [r] && owned == rest + multiset{h}
    {
      h := |hs|;
      AppendStep(hs, owned, r, h, hs + [r], rest + multiset{h});
      hs := hs + [r];
      owned := rest + multiset{h};
    }

    // dpiObject__allocate and its like: a handle is created with references to its parents, for
    // which the caller passes handles it has.
    method Create(kind: Kind, parents: seq<Id>) returns (h: Id)
      requires Valid() && forall i :: 0 <= i < |parents| ==> owned[parents[i]] > 0
      modifies this
      ensures Valid() && h == |old(hs)| && |hs| == h + 1 && owned == old(owned) + multiset{h}
      ensures hs[h] == New(kind, parents) && Raised(old(hs), parents, hs[..h])
    {
      ParentsExist(hs, owned, parents);
      AddToAll(parents);
      h := Append(New(kind, parents), old(owned));
    }

    // The public functions that add and release a reference: a handle whose check integer is gone is
    // refused. Programs release only references they own.
    method AddRef(h: Id) returns (ok: bool)
      requires Valid() && h < |hs|
      modifies this
      ensures Valid() && ok == (old(hs[h]).count > 0)
      ensures owned == if ok then old(owned) + multiset{h} else old(owned)
      ensures hs == if ok then old(hs)[h := old(hs[h]).(count := old(hs[h]).count + 1)] else old(hs)
    {
      assert NodeOk(hs, owned, h);
      ok := hs[h].checkInt;
      if ok {
        Add(h);
      }
    }

    method Release(h: Id) returns (ok: bool)
      requires Valid() && h < |hs| && (hs[h].checkInt ==> owned[h] > 0)
      modifies this
      ensures Valid() && ok == (old(hs[h]).count > 0)
      ensures owned == if ok then old(owned) - multiset{h} else old(owned)
      ensures !ok ==> hs == old(hs)
      // exactly the handles that the program can no longer reach have been freed, once each
      ensures |hs| == |old(hs)|
      ensures forall k :: 0 <= k < |hs| ==> hs[k].parents == old(hs[k]).parents
      ensures forall k :: 0 <= k < |hs| ==> (hs[k].checkInt <==> Reachable(hs, owned, k))
      ensures forall k :: 0 <= k < |hs| ==> hs[k].freeCalls == if Reachable(hs, owned, k) then 0 else 1
    {
      assert NodeOk(hs, owned, h);
      ok := hs[h].checkInt;
      if ok {
        Drop(h);
      }
      forall k | 0 <= k < |hs|
        ensures hs[k].checkInt <==> Reachable(hs, owned, k)
        ensures hs[k].freeCalls == if Reachable(hs, owned, k) then 0 else 1
      {
        AliveIffReachable(hs, owned, k);
        assert NodeOk(hs, owned, k);
      }
    }
  }
}
