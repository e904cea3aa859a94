/** The slots in which a connection remembers the handles that depend on it. */
module HandleList {
  import opened Wrappers

  type Handle = int

  const NULL: Handle := 0
  const GROWTH := 8

  // ---- slots ----

  function Used(s: seq<Handle>): (n: nat)
    ensures n <= |s|
  {
    if s == [] then 0 else (if s[0] != NULL then 1 else 0) + Used(s[1..])
  }

  function Occupied(s: seq<Handle>): map<nat, Handle> {
    map i: nat | i < |s| && s[i] != NULL :: s[i]
  }

  lemma {:induction false} UsedUpdate(s: seq<Handle>, i: nat, h: Handle)
    requires i < |s|
    ensures Used(s[i := h]) == Used(s) + (if h != NULL then 1 else 0) - (if s[i] != NULL then 1 else 0)
  {
    if i == 0 {
      assert s[i := h][1..] == s[1..];
    } else {
      UsedUpdate(s[1..], i - 1, h);
      assert s[i := h][1..] == s[1..][i - 1 := h];
    }
  }

  // A list that is not full has an empty slot, and a full one has none.
  lemma {:induction false} FullExactly(s: seq<Handle>)
    ensures Used(s) == |s| <==> forall i :: 0 <= i < |s| ==> s[i] != NULL
  {
    if s != [] {
      FullExactly(s[1..]);
      if forall i :: 0 <= i < |s| ==> s[i] != NULL {
        assert forall i :: 0 <= i < |s[1..]| ==> s[1..][i] == s[i + 1];
      } else if s[0] != NULL {
        var i :| 0 <= i < |s| && s[i] == NULL;
        assert s[1..][i - 1] == NULL;
      }
    }
  }

  lemma {:induction false} UsedAppendEmpty(s: seq<Handle>, empty: seq<Handle>)
    requires forall i :: 0 <= i < |empty| ==> empty[i] == NULL
    ensures Used(s + empty) == Used(s)
  {
    if s == [] {
      assert s + empty == empty;
      if empty != [] {
        UsedAppendEmpty([], empty[1..]);
        assert [] + empty[1..] == empty[1..];
      }
    } else {
      UsedAppendEmpty(s[1..], empty);
      assert (s + empty)[1..] == s[1..] + empty;
    }
  }

  lemma {:induction false} UsedIsCount(s: seq<Handle>)
    ensures Used(s) == |Occupied(s)|
    decreases |s|
  {
    if s != [] {
      var n := |s| - 1;
      var t := s[..n];
      UsedIsCount(t);
      assert s == t + [s[n]];
      UsedSnoc(t, s[n]);
      assert Occupied(s) == if s[n] != NULL then Occupied(t)[n := s[n]] else Occupied(t);
      assert n !in Occupied(t);
    }
  }

  lemma {:induction false} UsedSnoc(s: seq<Handle>, h: Handle)
    ensures Used(s + [h]) == Used(s) + if h != NULL then 1 else 0
  {
    if s == [] {
      assert (s + [h])[1..] == [];
    } else {
      UsedSnoc(s[1..], h);
      assert (s + [h])[1..] == s[1..] + [h];
    }
  }

  // ---- the rotating scan ----

  // The position of the i-th probe of a scan of n slots from a start position.
  function Probe(start: nat, i: nat, n: nat): (p: nat)
    requires start < n && i <= n
    ensures p < n
  {
    if start + i < n then start + i else start + i - n
  }

  // The scan that starts at a position ends at the first empty slot in rotating order.
  predicate FirstEmpty(s: seq<Handle>, start: nat, i: nat) {
    && start < |s| && i < |s| && s[Probe(start, i, |s|)] == NULL
    && forall k :: 0 <= k < i ==> s[Probe(start, k, |s|)] != NULL
  }

  // If all probes meet used slots, the list is full.
  lemma ScanComplete(s: seq<Handle>, start: nat)
    requires start < |s|
    requires forall k :: 0 <= k < |s| ==> s[Probe(start, k, |s|)] != NULL
    ensures Used(s) == |s|
  {
    forall p | 0 <= p < |s|
      ensures s[p] != NULL
    {
      var k := if start <= p then p - start else p - start + |s|;
      assert s[Probe(start, k, |s|)] == s[p];
    }
    FullExactly(s);
  }

  // The scan of a list that is not full ends within as many probes as there are slots.
  lemma ScanFinds(s: seq<Handle>, start: nat) returns (i: nat)
    requires start < |s| && Used(s) < |s|
    ensures FirstEmpty(s, start, i)
  {
    i := 0;
    while i < |s| && s[Probe(start, i, |s|)] != NULL
      invariant i <= |s| && forall k :: 0 <= k < i ==> s[Probe(start, k, |s|)] != NULL
    {
      i := i + 1;
    }
    if i == |s| {
      ScanComplete(s, start);
    }
  }

  class SlotList {
    var handles: array<Handle>
    var numSlots: nat
    var numUsedSlots: nat
    var currentPos: nat

    ghost predicate Valid()
      reads this, handles
    {
      handles.Length == numSlots && currentPos < numSlots && numUsedSlots == Used(handles[..])
    }

    ghost function View(): map<nat, Handle>
      reads this, handles
    {
      Occupied(handles[..])
    }

    constructor ()
      ensures Valid() && View() == map[] && numSlots == GROWTH && currentPos == 0 && fresh(handles)
    {
      handles := new Handle[GROWTH](_ => NULL);
      numSlots, numUsedSlots, currentPos := GROWTH, 0, 0;
      new;
      UsedAppendEmpty([], handles[..]);
      assert [] + handles[..] == handles[..];
    }

    method Grow()
      requires Valid() && numUsedSlots == numSlots
      modifies this
      ensures Valid() && fresh(handles)
      ensures View() == old(View()) && numSlots == old(numSlots) + GROWTH
      ensures numUsedSlots == old(numUsedSlots) && currentPos == old(currentPos)
      ensures handles[old(numSlots)] == NULL
    {
      var n := numSlots + GROWTH;
      ghost var s := handles[..];
      var tempHandles := new Handle[n](_ => NULL);
      forall i | 0 <= i < numSlots {
        tempHandles[i] := handles[i];
      }
      ghost var t := tempHandles[..];
      assert t == s + t[numSlots..];
      UsedAppendEmpty(s, t[numSlots..]);
      assert Occupied(t) == Occupied(s);
      handles := tempHandles;
      numSlots := n;
      assert handles[..] == t;
    }

    // The rotating scan of a list that is not full.
    method Scan() returns (slotNum: nat)
      requires Valid() && numUsedSlots < numSlots
      modifies this`currentPos
      ensures Valid() && slotNum < numSlots && handles[slotNum] == NULL && currentPos == slotNum
      ensures exists i :: FirstEmpty(handles[..], old(currentPos), i) && slotNum == Probe(old(currentPos), i, numSlots)
    {
      ghost var start := currentPos;
      var i := 0;
      while i < numSlots && handles[currentPos] != NULL
        invariant i <= numSlots && currentPos == Probe(start, i, numSlots)
        invariant forall k :: 0 <= k < i ==> handles[..][Probe(start, k, numSlots)] != NULL
      {
        assert handles[..][Probe(start, i, numSlots)] != NULL;
        i := i + 1;
        currentPos := currentPos + 1;
        if currentPos == numSlots {
          currentPos := 0;
        }
      }
      if i == numSlots {
        ScanComplete(handles[..], start);
      }
      assert FirstEmpty(handles[..], start, i);
      slotNum := currentPos;
    }

    // The handle gets a slot nobody else has; all others keep theirs. Only a full list grows, and
    // it gives out its first new slot.
    method AddHandle(handle: Handle, memory: bool) returns (slotNum: Option<nat>)
      requires Valid() && handle != NULL
      modifies this, handles
      ensures Valid() && (handles == old(handles) || fresh(handles))
      ensures slotNum.None? <==> old(numUsedSlots) == old(numSlots) && !memory
      ensures slotNum.None? ==> View() == old(View()) && numUsedSlots == old(numUsedSlots) && numSlots == old(numSlots)
      ensures slotNum.Some? ==>
                && slotNum.value !in old(View()) && View() == old(View())[slotNum.value := handle]
                && numUsedSlots == old(numUsedSlots) + 1
                && if old(numUsedSlots) == old(numSlots)
                   then slotNum.value == old(numSlots) && numSlots == old(numSlots) + GROWTH
                   else numSlots == old(numSlots)
                        && exists i :: FirstEmpty(old(handles[..]), old(currentPos), i)
                                       && slotNum.value == Probe(old(currentPos), i, numSlots)
    {
      var slot;
      FullExactly(handles[..]);
      if numUsedSlots == numSlots {
        if !memory {
          return None;
        }
        slot := numUsedSlots;
        Grow();
        currentPos := slot + 1;
      } else {
        slot := Scan();
        currentPos := currentPos + 1;
        if currentPos == numSlots {
          currentPos := 0;
        }
      }
      numUsedSlots := numUsedSlots + 1;
      ghost var s := handles[..];
      UsedUpdate(s, slot, handle);
      handles[slot] := handle;
      assert handles[..] == s[slot := handle];
      return Some(slot);
    }

    // The caller gives back the slot it was given.
    method RemoveHandle(slotNum: nat)
      requires Valid() && slotNum in View()
      modifies this, handles
      ensures Valid() && handles == old(handles)
      ensures View() == old(View()) - {slotNum} && numUsedSlots == old(numUsedSlots) - 1 && numSlots == old(numSlots)
    {
      ghost var s := handles[..];
      UsedUpdate(s, slotNum, NULL);
      handles[slotNum] := NULL;
      assert handles[..] == s[slotNum := NULL];
      numUsedSlots := numUsedSlots - 1;
    }
  }
}
